/** The parsed document and the tolerant path lookup (`getText`) over it,
    with the ordered-fallback combinator the normaliser chains with `||`. */
module Tree {
  import opened Wrappers
  import opened Numbers

  /** A node of the parse tree in xml2js's "explicit array" shape: text, an
      object keyed by child element name, or an array of occurrences. */
  datatype Val = Text(s: string) | Obj(fields: map<string, Val>) | Arr(elems: seq<Val>)

  /** JavaScript truthiness of a tree value: the empty string is the only
      falsy one; objects and arrays, even empty ones, are truthy. */
  predicate Truthy(v: Val) {
    !(v.Text? && v.s == "")
  }

  /** A lookup result that a `||` chain would keep. */
  predicate Present(o: Option<Val>) {
    o.Some? && Truthy(o.value)
  }

  /** A key JavaScript reads as an array index: "0", or digits with no leading zero. */
  predicate IsIndexKey(key: string) {
    key != [] && AllDigits(key) && (key[0] == '0' ==> |key| == 1)
  }

  /** `v[key]`: an object's field, or an array's element at an index key.
      A key applied to text finds nothing. */
  function Lookup(v: Val, key: string): (r: Option<Val>)
    ensures r.Some? ==> (v.Obj? && key in v.fields) || (v.Arr? && IsIndexKey(key))
  {
    match v
    case Text(_) => None
    case Obj(m) => if key in m then Some(m[key]) else None
    case Arr(a) => if IsIndexKey(key) && DigitsValue(key) < |a| then Some(a[DigitsValue(key)]) else None
  }

  /** One pass of the lookup loop: stop when the current value is falsy or
      its child at `key` is missing or falsy; otherwise descend. */
  function Step(v: Val, key: string): (r: Option<Val>)
    ensures r.None? <==> !Truthy(v) || !Present(Lookup(v, key))
    ensures r.Some? ==> r == Lookup(v, key)
  {
    if !Truthy(v) then None
    else match Lookup(v, key)
      case None => None
      case Some(c) => if Truthy(c) then Some(c) else None
  }

  /** The value the lookup loop ends on after following every key in `keys`. */
  function Resolve(v: Val, keys: seq<string>): (r: Option<Val>)
    ensures keys != [] && r.Some? ==> Truthy(r.value)
    decreases |keys|
  {
    if keys == [] then Some(v)
    else match Step(v, keys[0])
      case None => None
      case Some(c) => Resolve(c, keys[1..])
  }

  /** A non-empty array stands for its first element. */
  function Unwrap(v: Val): Val {
    if v.Arr? && |v.elems| > 0 then v.elems[0] else v
  }

  /** `getText(v, path)` with the path already split at its dots. */
  function GetText(v: Val, keys: seq<string>): (r: Option<Val>)
    ensures r.Some? <==> Resolve(v, keys).Some?
    ensures r.Some? && r.value != Resolve(v, keys).value ==> Resolve(v, keys).value.Arr?
  {
    match Resolve(v, keys)
    case None => None
    case Some(c) => Some(Unwrap(c))
  }

  /** The lookup breaks at segment `i`: the first `i` keys lead somewhere,
      and the value there is falsy or has no truthy child at `keys[i]`. */
  ghost predicate BreaksAt(v: Val, keys: seq<string>, i: int) {
    0 <= i < |keys| && Resolve(v, keys[..i]).Some? && Step(Resolve(v, keys[..i]).value, keys[i]).None?
  }

  /** Following `p + q` is following `p`, then `q` from where `p` ended. */
  lemma {:induction false} ResolveAppend(v: Val, p: seq<string>, q: seq<string>)
    ensures Resolve(v, p + q) == (match Resolve(v, p) case None => None case Some(w) => Resolve(w, q))
    decreases |p|
  {
    if p != [] {
      assert (p + q)[0] == p[0] && (p + q)[1..] == p[1..] + q;
      match Step(v, p[0])
      case None =>
      case Some(c) => ResolveAppend(c, p[1..], q);
    } else {
      assert p + q == q;
    }
  }

  /** The path lookup fails exactly when some segment breaks it, and it
      breaks at most once: after the first break nothing is followed. */
  lemma {:induction false} ResolveFailsAtBreak(v: Val, keys: seq<string>)
    ensures Resolve(v, keys).None? <==> exists i :: BreaksAt(v, keys, i)
    ensures forall i, j :: BreaksAt(v, keys, i) && BreaksAt(v, keys, j) ==> i == j
    decreases |keys|
  {
    if keys != [] {
      var k, rest := keys[0], keys[1..];
      assert keys[..0] == [];
      match Step(v, k)
      case None =>
        assert BreaksAt(v, keys, 0);
      case Some(c) =>
        ResolveFailsAtBreak(c, rest);
        assert !BreaksAt(v, keys, 0);
        forall i | 0 <= i < |rest|
          ensures BreaksAt(v, keys, i + 1) <==> BreaksAt(c, rest, i)
        {
          assert keys[..i + 1] == [k] + rest[..i];
          assert keys[..i + 1][1..] == rest[..i];
        }
        if exists i :: BreaksAt(c, rest, i) {
          var i :| BreaksAt(c, rest, i);
          assert BreaksAt(v, keys, i + 1);
        }
        if exists i :: BreaksAt(v, keys, i) {
          var i :| BreaksAt(v, keys, i);
          assert BreaksAt(c, rest, i - 1);
        }
        forall i, j | BreaksAt(v, keys, i) && BreaksAt(v, keys, j)
          ensures i == j
        {
          assert BreaksAt(c, rest, i - 1) && BreaksAt(c, rest, j - 1);
        }
    }
  }

  /** `getText` returns nothing as soon as one segment's child is missing
      or falsy; otherwise it returns the value reached, or that value's
      first element when it is a non-empty array. */
  lemma GetTextSpec(v: Val, keys: seq<string>)
    ensures GetText(v, keys).None? <==> exists i :: BreaksAt(v, keys, i)
    ensures GetText(v, keys).Some? ==>
      var w := Resolve(v, keys).value;
      GetText(v, keys).value == (if w.Arr? && w.elems != [] then w.elems[0] else w)
  {
    ResolveFailsAtBreak(v, keys);
  }

  /** The first candidate a chain `c0 || c1 || ...` keeps, if any. */
  function FirstPresent(cands: seq<Option<Val>>): (r: Option<Val>)
    ensures r.None? <==> forall i :: 0 <= i < |cands| ==> !Present(cands[i])
    ensures r.Some? ==> Truthy(r.value)
    ensures r.Some? ==>
      exists i :: 0 <= i < |cands| && cands[i] == r && forall j :: 0 <= j < i ==> !Present(cands[j])
  {
    if cands == [] then None
    else if Present(cands[0]) then cands[0]
    else
      var r := FirstPresent(cands[1..]);
      assert forall i :: 1 <= i < |cands| ==> cands[i] == cands[1..][i - 1];
      r
  }

  /** `c0 || c1 || ... || default`: the first present candidate, and the
      literal default only when every candidate is absent. */
  function FirstOf(cands: seq<Option<Val>>, default: Val): (r: Val)
    ensures (forall i :: 0 <= i < |cands| ==> !Present(cands[i])) ==> r == default
    ensures (exists i :: 0 <= i < |cands| && Present(cands[i])) ==>
      exists i :: 0 <= i < |cands| && Present(cands[i]) && cands[i] == Some(r) && forall j :: 0 <= j < i ==> !Present(cands[j])
  {
    FirstPresent(cands).GetOr(default)
  }

  /** The chain `getText(v, p0) || getText(v, p1) || ...` over candidate paths. */
  function FirstText(v: Val, paths: seq<seq<string>>): (r: Option<Val>)
    ensures r.Some? ==> Truthy(r.value)
  {
    if paths == [] then None
    else
      var g := GetText(v, paths[0]);
      if Present(g) then g else FirstText(v, paths[1..])
  }

  /** `getText(v, p0) || ... || default`. */
  function TextOr(v: Val, paths: seq<seq<string>>, default: Val): (r: Val)
    ensures Truthy(default) ==> Truthy(r)
  {
    FirstText(v, paths).GetOr(default)
  }

  /** The path chain is the `||` chain of the lookups along each path, in order. */
  lemma {:induction false} FirstTextIsFirstPresent(v: Val, paths: seq<seq<string>>)
    ensures FirstText(v, paths) == FirstPresent(seq(|paths|, i requires 0 <= i < |paths| => GetText(v, paths[i])))
  {
    var cands := seq(|paths|, i requires 0 <= i < |paths| => GetText(v, paths[i]));
    if paths != [] {
      FirstTextIsFirstPresent(v, paths[1..]);
      assert cands[1..] == seq(|paths[1..]|, i requires 0 <= i < |paths[1..]| => GetText(v, paths[1..][i]));
    }
  }

  /** The literal default of a path chain is used exactly when no path yields a truthy value. */
  lemma TextOrDefault(v: Val, paths: seq<seq<string>>, default: Val)
    ensures (forall i :: 0 <= i < |paths| ==> !Present(GetText(v, paths[i]))) <==> FirstText(v, paths).None?
    ensures FirstText(v, paths).None? ==> TextOr(v, paths, default) == default
  {
    FirstTextIsFirstPresent(v, paths);
  }

  /** A chain in which every path starts with a key `v` lacks yields nothing. */
  lemma {:induction false} MissingFirstKeys(v: Val, paths: seq<seq<string>>)
    requires forall i :: 0 <= i < |paths| ==> paths[i] != [] && Lookup(v, paths[i][0]).None?
    ensures FirstText(v, paths) == None
  {
    if paths != [] {
      MissingFirstKeys(v, paths[1..]);
    }
  }

  /** First match wins: a present candidate is chosen over every later one. */
  lemma FirstOfPrefersEarlier(cands: seq<Option<Val>>, default: Val, i: int)
    requires 0 <= i < |cands| && Present(cands[i])
    requires forall j :: 0 <= j < i ==> !Present(cands[j])
    ensures FirstOf(cands, default) == cands[i].value
  {
  }
}
