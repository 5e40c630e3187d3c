/**
 * Looking up and assigning children of a tag by segment (nbt/src/tag/index.rs, and the
 * `ops::Index`/`IndexMut` impls of nbt/src/lib.rs). A segment is a compound key (`str`,
 * `String`, or a reference to one) or a list position (`usize`, or a reference to one);
 * the owned and borrowed forms of each behave identically, so each is one `Segment` here.
 */
module TagIndex {
  import opened Results
  import opened Tags
  import K = Kinds
  import M = OrderedMap

  datatype Segment = Key(name: string) | Position(n: nat)

  /** The panics of `index_or_insert`. */
  datatype IndexError =
    | CannotIndex(kind: K.Kind)                 // a key on a non-compound
    | CannotAccessIndex(kind: K.Kind)           // a position on a non-list
    | OutOfBounds(index: nat, len: nat)         // a position past the end of a list

  /** `index_into` (`Tag::get`): the child at `seg`, if there is one. */
  function IndexInto(seg: Segment, t: Tag): (r: Option<Tag>)
    ensures seg.Key? && t.Compound? ==> r == M.Find(t.entries, seg.name)
    ensures seg.Position? && t.List? ==> (r.Some? <==> seg.n < |t.items|)
    ensures seg.Position? && t.List? && seg.n < |t.items| ==> r == Some(t.items[seg.n])
    ensures !(seg.Key? && t.Compound?) && !(seg.Position? && t.List?) ==> r.None?
  {
    match (seg, t)
    case (Key(k), Compound(m)) => M.Find(m, k)
    case (Position(n), List(_, v)) => if n < |v| then Some(v[n]) else None
    case _ => None
  }

  /** `tag[seg]` (`ops::Index for Tag`): the child, or End when there is none. */
  function At(t: Tag, seg: Segment): (r: Tag)
    ensures IndexInto(seg, t).Some? ==> r == IndexInto(seg, t).value
    ensures IndexInto(seg, t).None? ==> r == End
  {
    IndexInto(seg, t).GetOr(End)
  }

  /** An End has no children, so a chain of lookups through a missing child ends in End. */
  lemma AtEnd(seg: Segment)
    ensures At(End, seg) == End
  {
  }

  lemma {:induction false} ChainThroughMissing(t: Tag, path: seq<Segment>)
    requires |path| > 0 && IndexInto(path[0], t).None?
    ensures AtPath(t, path) == End
  {
    EndPath(path[1..]);
  }

  lemma {:induction false} EndPath(path: seq<Segment>)
    ensures AtPath(End, path) == End
    decreases |path|
  {
    if path != [] {
      EndPath(path[1..]);
    }
  }

  /** `tag[s0][s1]...`: successive lookups. */
  function AtPath(t: Tag, path: seq<Segment>): Tag
    decreases |path|
  {
    if path == [] then t else AtPath(At(t, path[0]), path[1..])
  }

  /**
   * `index_into_mut` (`Tag::get_mut`) followed by writing `v` through the slot: the child at
   * `seg` becomes `v`, in place (a compound entry keeps its position).
   */
  function WriteExisting(t: Tag, seg: Segment, v: Tag): (r: Tag)
    requires IndexInto(seg, t).Some?
    ensures IndexInto(seg, r) == Some(v)
    ensures SameVariant(t, r)
    ensures t.Compound? ==> M.Keys(r.entries) == M.Keys(t.entries)
    ensures t.List? ==> r.elemId == t.elemId && |r.items| == |t.items|
    ensures t.Compound? ==> forall k' :: Key(k') != seg ==> IndexInto(Key(k'), r) == IndexInto(Key(k'), t)
    ensures t.List? ==> forall j :: 0 <= j < |t.items| && Position(j) != seg ==> r.items[j] == t.items[j]
  {
    match (seg, t)
    case (Key(k), Compound(m)) => M.PutSpec(m, k, v); Compound(M.Put(m, k, v))
    case (Position(n), List(id, items)) => List(id, items[n := v])
  }

  /**
   * `index_or_insert` (`IndexMut for Tag`): a key on a compound reaches its entry, creating
   * `(key, End)` at the back when it is missing; a position on a list must be in bounds and
   * never grows the list. Returns the possibly extended container and the slot's value.
   */
  function IndexOrInsert(seg: Segment, t: Tag): (r: Result<(Tag, Tag), IndexError>)
    ensures r.Ok? ==> IndexInto(seg, r.value.0) == Some(r.value.1)
    ensures r.Ok? <==> (seg.Key? && t.Compound?) || (seg.Position? && t.List? && seg.n < |t.items|)
    ensures r.Ok? && t.List? ==> r.value.0 == t
    ensures r.Ok? && t.Compound? && M.HasKey(t.entries, seg.name) ==> r.value.0 == t
    ensures r.Ok? && t.Compound? && !M.HasKey(t.entries, seg.name) ==>
              r.value == (Compound(t.entries + [(seg.name, End)]), End)
    ensures seg.Key? && !t.Compound? ==> r == Err(CannotIndex(KindOf(t)))
    ensures seg.Position? && !t.List? ==> r == Err(CannotAccessIndex(KindOf(t)))
    ensures seg.Position? && t.List? && seg.n >= |t.items| ==> r == Err(OutOfBounds(seg.n, |t.items|))
  {
    match (seg, t)
    case (Key(k), Compound(m)) =>
      var m' := M.OrInsert(m, k, End);
      Ok((Compound(m'), M.Find(m', k).value))
    case (Key(_), _) => Err(CannotIndex(KindOf(t)))
    case (Position(n), List(_, v)) =>
      if n < |v| then Ok((t, v[n])) else Err(OutOfBounds(n, |v|))
    case (Position(_), _) => Err(CannotAccessIndex(KindOf(t)))
  }

  /** `Tag::insert` and `tag[seg] = v`: `*index_or_insert(seg) = v`. */
  function Assign(t: Tag, seg: Segment, v: Tag): (r: Result<Tag, IndexError>)
    ensures r.Err? <==> IndexOrInsert(seg, t).Err?
    ensures r.Err? ==> r.error == IndexOrInsert(seg, t).error
    ensures r.Ok? ==> IndexInto(seg, r.value) == Some(v)
  {
    var (container, _) :- IndexOrInsert(seg, t);
    Ok(WriteExisting(container, seg, v))
  }

  /** Assignment succeeds exactly where `index_or_insert` does. */
  lemma AssignSucceeds(t: Tag, seg: Segment, v: Tag)
    ensures Assign(t, seg, v).Ok? <==>
              (seg.Key? && t.Compound?) || (seg.Position? && t.List? && seg.n < |t.items|)
  {
  }

  /**
   * Assigning a key changes nothing else: every other key keeps its value, an existing
   * key keeps its position, and a new key is appended.
   */
  lemma AssignKeyFrame(t: Tag, k: string, v: Tag)
    requires t.Compound?
    ensures Assign(t, Key(k), v).Ok?
    ensures forall k' :: k' != k ==> At(Assign(t, Key(k), v).value, Key(k')) == At(t, Key(k'))
    ensures M.HasKey(t.entries, k) ==> M.Keys(Assign(t, Key(k), v).value.entries) == M.Keys(t.entries)
    ensures !M.HasKey(t.entries, k) ==> Assign(t, Key(k), v).value == Compound(t.entries + [(k, v)])
  {
    var m := t.entries;
    var m' := M.OrInsert(m, k, End);
    if !M.HasKey(m, k) {
      M.AppendNew(m, k, End);
      M.PutLast(m, k, End, v);
    }
    M.PutSpec(m', k, v);
    assert Assign(t, Key(k), v).value == Compound(M.Put(m', k, v));
    forall k' | k' != k
      ensures At(Assign(t, Key(k), v).value, Key(k')) == At(t, Key(k'))
    {
      assert M.Find(M.Put(m', k, v), k') == M.Find(m', k') == M.Find(m, k');
    }
  }

  /** Assigning a position replaces that element and nothing else; the list does not grow. */
  lemma AssignPositionFrame(t: Tag, n: nat, v: Tag)
    requires t.List? && n < |t.items|
    ensures Assign(t, Position(n), v) == Ok(List(t.elemId, t.items[n := v]))
  {
  }

  /** The `assignment` test: assigning a key of a compound and reading it back. */
  lemma AssignmentTest(t: Tag, v: Tag)
    requires t.Compound?
    ensures At(Assign(t, Key("testing"), v).value, Key("testing")) == v
  {
    AssignKeyFrame(t, "testing", v);
  }
}
