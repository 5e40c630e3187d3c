/**
 * Namespaced identifiers such as `minecraft:stone` (blocky-core/src/resource_location.rs):
 * validation of the two parts, construction with the default namespace, display as
 * `namespace:path`, and parsing from text.
 */
module ResourceLocations {
  import opened Results

  /** `ResourceLocationError`; `Parse` is declared by the source but never produced. */
  datatype LocationError = Parse | InvalidNamespace | InvalidPath

  datatype ResourceLocation = ResourceLocation(namespace: string, path: string)

  const DefaultNamespace: string := "minecraft"

  /** The characters `[0-9a-z_.-]` of a namespace. */
  predicate NamespaceChar(c: char) {
    '0' <= c <= '9' || 'a' <= c <= 'z' || c == '_' || c == '-' || c == '.'
  }

  /** The characters of a path: those of a namespace and `/`. */
  predicate PathChar(c: char) {
    NamespaceChar(c) || c == '/'
  }

  /**
   * The character loop of the validators: false at the first character outside the set
   * (`/` is allowed only when `slash` holds), true when the input runs out.
   */
  function AllowedChars(s: string, slash: bool): (b: bool)
    ensures b <==> forall i :: 0 <= i < |s| ==> if slash then PathChar(s[i]) else NamespaceChar(s[i])
  {
    if s == [] then true
    else if !(if slash then PathChar(s[0]) else NamespaceChar(s[0])) then false
    else AllowedChars(s[1..], slash)
  }

  /** `is_valid_namespace`: non-empty, and only `[0-9a-z_.-]`. */
  function IsValidNamespace(s: string): (b: bool)
    ensures b <==> |s| > 0 && forall i :: 0 <= i < |s| ==> NamespaceChar(s[i])
  {
    if s == [] then false else AllowedChars(s, false)
  }

  /** `is_valid_path`: non-empty, and only `[0-9a-z_./-]`. */
  function IsValidPath(s: string): (b: bool)
    ensures b <==> |s| > 0 && forall i :: 0 <= i < |s| ==> PathChar(s[i])
  {
    if s == [] then false else AllowedChars(s, true)
  }

  /** What every constructed location satisfies. */
  predicate Valid(l: ResourceLocation) {
    IsValidNamespace(l.namespace) && IsValidPath(l.path)
  }

  /** The namespace `new` validates: an empty one is replaced by the default. */
  function EffectiveNamespace(namespace: string): string {
    if namespace == [] then DefaultNamespace else namespace
  }

  /**
   * `ResourceLocation::new`: the namespace (after defaulting) is checked first, then the
   * path; on success both are stored unchanged and the accessors return them.
   */
  function New(namespace: string, path: string): (r: Result<ResourceLocation, LocationError>)
    ensures r.Ok? <==> IsValidNamespace(EffectiveNamespace(namespace)) && IsValidPath(path)
    ensures !IsValidNamespace(EffectiveNamespace(namespace)) ==> r == Err(InvalidNamespace)
    ensures IsValidNamespace(EffectiveNamespace(namespace)) && !IsValidPath(path) ==> r == Err(InvalidPath)
    ensures r.Ok? ==> r.value.namespace == EffectiveNamespace(namespace) && r.value.path == path
    ensures r.Ok? ==> Valid(r.value)
  {
    var ns := if namespace == [] then DefaultNamespace else namespace;
    if !IsValidNamespace(ns) then Err(InvalidNamespace)
    else if !IsValidPath(path) then Err(InvalidPath)
    else Ok(ResourceLocation(ns, path))
  }

  /** Every valid location is what `new` builds from its own parts. */
  lemma NewValid(l: ResourceLocation)
    requires Valid(l)
    ensures New(l.namespace, l.path) == Ok(l)
  {
  }

  /** An empty namespace behaves exactly as `minecraft`. */
  lemma NewDefaultsNamespace(path: string)
    ensures New("", path) == New(DefaultNamespace, path)
    ensures IsValidPath(path) ==> New("", path) == Ok(ResourceLocation(DefaultNamespace, path))
  {
    assert IsValidNamespace(DefaultNamespace);
  }

  /** `Display`: the namespace, a colon, the path. */
  function Display(l: ResourceLocation): (s: string)
    ensures |s| == |l.namespace| + 1 + |l.path|
    ensures s[..|l.namespace|] == l.namespace && s[|l.namespace|] == ':'
    ensures s[|l.namespace| + 1..] == l.path
  {
    l.namespace + ":" + l.path
  }

  /** `str::find` on one character: the first position holding `c`. */
  function IndexOf(s: string, c: char): (r: Option<nat>)
    ensures r.None? <==> forall j :: 0 <= j < |s| ==> s[j] != c
    ensures r.Some? ==> r.value < |s| && s[r.value] == c && forall j :: 0 <= j < r.value ==> s[j] != c
  {
    if s == [] then None
    else if s[0] == c then Some(0)
    else match IndexOf(s[1..], c)
      case None => None
      case Some(i) => Some(i + 1)
  }

  /**
   * `from_str` as written: the text is split before its first `c` (not at a colon), so the
   * `c` begins the path; without a `c` the namespace is `minecraft` and the path is the text.
   */
  function FromStrAsWritten(s: string): (r: Result<ResourceLocation, LocationError>)
    ensures r.Ok? && IndexOf(s, 'c').Some? ==> r.value.path == s[IndexOf(s, 'c').value..]
    ensures r.Ok? && IndexOf(s, 'c').None? ==> r.value == ResourceLocation(DefaultNamespace, s)
  {
    match IndexOf(s, 'c')
    case Some(i) => New(s[..i], s[i..])
    case None => New(DefaultNamespace, s)
  }

  /** `minecraft:stone` does not parse back: it is split into `mine` and `craft:stone`. */
  lemma FromStrAsWrittenCounterexample()
    ensures Valid(ResourceLocation("minecraft", "stone"))
    ensures FromStrAsWritten("minecraft:stone") == New("mine", "craft:stone")
    ensures FromStrAsWritten("minecraft:stone") == Err(InvalidPath)
  {
    StoneSplit();
    CraftPathInvalid();
    StoneValid();
  }

  lemma StoneSplit()
    ensures IndexOf("minecraft:stone", 'c') == Some(4)
    ensures "minecraft:stone"[..4] == "mine" && "minecraft:stone"[4..] == "craft:stone"
  {
    var s := "minecraft:stone";
    assert s[0] == 'm' && s[1] == 'i' && s[2] == 'n' && s[3] == 'e' && s[4] == 'c';
  }

  lemma CraftPathInvalid()
    ensures New("mine", "craft:stone") == Err(InvalidPath)
  {
    var n, p := "mine", "craft:stone";
    assert forall i | 0 <= i < |n| :: 'a' <= n[i] <= 'z';
    assert !PathChar(p[5]);
  }

  lemma StoneValid()
    ensures Valid(ResourceLocation("minecraft", "stone"))
  {
    var n, p := "minecraft", "stone";
    assert forall i | 0 <= i < |n| :: 'a' <= n[i] <= 'z';
    assert forall i | 0 <= i < |p| :: 'a' <= p[i] <= 'z';
  }

  /**
   * No valid location survives display and `from_str` as written: the colon of the display
   * always lands in the namespace or the path, where it is not allowed.
   */
  lemma FromStrAsWrittenRejectsDisplay(l: ResourceLocation)
    requires Valid(l)
    ensures FromStrAsWritten(Display(l)).Err?
  {
    var s := Display(l);
    var n := |l.namespace|;
    match IndexOf(s, 'c')
    case None =>
      assert !IsValidPath(s) by {
        assert !PathChar(s[n]);
      }
    case Some(i) =>
      if i < n {
        assert s[i..][n - i] == ':';
        assert !IsValidPath(s[i..]) by {
          assert !PathChar(s[i..][n - i]);
        }
      } else {
        assert i != n;
        assert s[..i][n] == ':';
        assert !IsValidNamespace(EffectiveNamespace(s[..i])) by {
          assert !NamespaceChar(s[..i][n]);
        }
      }
  }

  /**
   * `from_str` as intended: split at the first colon, which belongs to neither part;
   * without a colon the namespace is `minecraft` and the path is the text.
   */
  function FromStr(s: string): (r: Result<ResourceLocation, LocationError>)
    ensures r.Ok? ==> Valid(r.value)
    ensures r.Ok? && IndexOf(s, ':').None? ==> r.value == ResourceLocation(DefaultNamespace, s)
  {
    match IndexOf(s, ':')
    case Some(i) => New(s[..i], s[i + 1..])
    case None => New(DefaultNamespace, s)
  }

  /** Parsing a displayed location gives it back. */
  lemma FromStrDisplay(l: ResourceLocation)
    requires Valid(l)
    ensures FromStr(Display(l)) == Ok(l)
  {
    var s := Display(l);
    var n := |l.namespace|;
    assert forall j :: 0 <= j < n ==> s[j] == l.namespace[j];
    assert IndexOf(s, ':') == Some(n);
  }

  /** Text that parses, with a non-empty namespace before its colon, is the display of what it parses to. */
  lemma DisplayFromStr(s: string)
    requires FromStr(s).Ok? && IndexOf(s, ':').Some? && IndexOf(s, ':').value > 0
    ensures Display(FromStr(s).value) == s
  {
    var i := IndexOf(s, ':').value;
    assert s == s[..i] + ":" + s[i + 1..];
  }
}
