/**
 * The named root of an NBT document (`Nbt` in nbt/src/lib.rs). Its `get`/`get_mut`/`insert`
 * and `[]` operators act on the root tag only; the name is never touched.
 */
module NbtRoot {
  import opened Results
  import opened Tags
  import opened TagIndex

  class Nbt {
    var name: string
    var tag: Tag

    /** `Nbt::new`. */
    constructor (name: string, tag: Tag)
      ensures this.name == name && this.tag == tag
    {
      this.name := name;
      this.tag := tag;
    }

    /** `Nbt::get`: a child of the root. */
    function Get(seg: Segment): (r: Option<Tag>)
      reads this
      ensures r == IndexInto(seg, tag)
    {
      IndexInto(seg, tag)
    }

    /** `nbt[key]` (`ops::Index<&str> for Nbt`): the child under `key`, or End. */
    function Index(key: string): (r: Tag)
      reads this
      ensures r == At(tag, Key(key))
      ensures !tag.Compound? ==> r == End
    {
      At(tag, Key(key))
    }

    /**
     * `Nbt::get_mut` and a write of `v` through the reference it returns: when the root has
     * a child at `seg`, that child becomes `v`; otherwise nothing changes.
     */
    method GetMut(seg: Segment, v: Tag) returns (found: bool)
      modifies this
      ensures found <==> IndexInto(seg, old(tag)).Some?
      ensures found ==> tag == WriteExisting(old(tag), seg, v) && IndexInto(seg, tag) == Some(v)
      ensures !found ==> tag == old(tag)
      ensures name == old(name)
    {
      if IndexInto(seg, tag).Some? {
        tag := WriteExisting(tag, seg, v);
        return true;
      }
      return false;
    }

    /**
     * `Nbt::insert` (and `nbt[key] = v`): assign through `index_or_insert`. Afterwards
     * `nbt[seg]` is `v`. Where the source panics the root is left as it was.
     */
    method Insert(seg: Segment, v: Tag) returns (r: Result<(), IndexError>)
      modifies this
      ensures r.Ok? <==> Assign(old(tag), seg, v).Ok?
      ensures r.Ok? ==> tag == Assign(old(tag), seg, v).value && At(tag, seg) == v
      ensures r.Err? ==> tag == old(tag) && r.error == Assign(old(tag), seg, v).error
      ensures name == old(name)
    {
      var next := Assign(tag, seg, v);
      if next.Err? {
        return Err(next.error);
      }
      tag := next.value;
      return Ok(());
    }

    /**
     * `&mut nbt[key]` (`ops::IndexMut<&str> for Nbt`): reach the slot for `key`, creating
     * `(key, End)` when missing, and return its current value.
     */
    method IndexMut(key: string) returns (r: Result<Tag, IndexError>)
      modifies this
      ensures r.Ok? <==> old(tag).Compound?
      ensures r.Ok? ==> (tag, r.value) == IndexOrInsert(Key(key), old(tag)).value
      ensures r.Err? ==> tag == old(tag) && r.error == CannotIndex(KindOf(old(tag)))
      ensures name == old(name)
    {
      var slot := IndexOrInsert(Key(key), tag);
      if slot.Err? {
        return Err(slot.error);
      }
      tag := slot.value.0;
      return Ok(slot.value.1);
    }
  }
}
