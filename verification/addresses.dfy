/** The address set: a JavaScript `Set` of resolved addresses, read back as
    an array in insertion order. Strings are compared by value; any other
    value is a distinct object of the parse tree and is always kept. */
module Addresses {
  import opened Tree

  /** `set.add(a)` on the insertion-ordered contents `seen`. */
  function Insert(seen: seq<Val>, a: Val): (r: seq<Val>)
    ensures a in r
    ensures |seen| <= |r| <= |seen| + 1 && r[..|seen|] == seen
    ensures forall x :: x in r <==> x in seen || x == a
    ensures !a.Text? ==> r == seen + [a]
    ensures a.Text? ==> (r == seen <==> a in seen)
  {
    if a.Text? && a in seen then seen else seen + [a]
  }

  /** Adding each of `l` in turn, starting from the contents `seen`. */
  function AddAll(seen: seq<Val>, l: seq<Val>): (r: seq<Val>)
    ensures |seen| <= |r| && r[..|seen|] == seen
    ensures forall x :: x in r <==> x in seen || x in l
    decreases |l|
  {
    if l == [] then seen
    else
      var r := AddAll(Insert(seen, l[0]), l[1..]);
      assert r[..|seen|] == r[..|Insert(seen, l[0])|][..|seen|];
      assert forall x :: x in l <==> x == l[0] || x in l[1..];
      r
  }

  /** Reference definition: keep each element of `l` unless it is a string
      that already occurred earlier in `l`. */
  function KeepFirst(l: seq<Val>): seq<Val>
  {
    if l == [] then []
    else
      var p, x := l[..|l| - 1], l[|l| - 1];
      KeepFirst(p) + (if x.Text? && x in p then [] else [x])
  }

  /** No string occurs twice. */
  predicate NoDuplicateText(s: seq<Val>) {
    forall i, j :: 0 <= i < j < |s| && s[i].Text? ==> s[i] != s[j]
  }

  /** Deduplication loses and invents nothing. */
  lemma {:induction false} KeepFirstMembers(l: seq<Val>)
    ensures forall x :: x in KeepFirst(l) <==> x in l
  {
    if l != [] {
      var p := l[..|l| - 1];
      KeepFirstMembers(p);
      assert l == p + [l[|l| - 1]];
    }
  }

  /** Deduplication leaves no string twice. */
  lemma {:induction false} KeepFirstNoDuplicateText(l: seq<Val>)
    ensures NoDuplicateText(KeepFirst(l))
  {
    if l != [] {
      var p := l[..|l| - 1];
      KeepFirstNoDuplicateText(p);
      KeepFirstMembers(p);
    }
  }

  /** Inserting one by one from the deduplicated prefix `p` yields the
      deduplication of `p + l`: the set's insertion order is first-occurrence order. */
  lemma {:induction false} AddAllKeepsFirst(p: seq<Val>, l: seq<Val>)
    ensures AddAll(KeepFirst(p), l) == KeepFirst(p + l)
    decreases |l|
  {
    if l == [] {
      assert p + l == p;
    } else {
      var q := p + [l[0]];
      calc {
        AddAll(KeepFirst(p), l);
        AddAll(Insert(KeepFirst(p), l[0]), l[1..]);
        { InsertKeepsFirst(p, l[0]); }
        AddAll(KeepFirst(q), l[1..]);
        { AddAllKeepsFirst(q, l[1..]); }
        KeepFirst(q + l[1..]);
        { assert q + l[1..] == p + l; }
        KeepFirst(p + l);
      }
    }
  }

  /** Inserting into the deduplicated prefix deduplicates the longer prefix. */
  lemma InsertKeepsFirst(p: seq<Val>, x: Val)
    ensures Insert(KeepFirst(p), x) == KeepFirst(p + [x])
  {
    var q := p + [x];
    KeepFirstMembers(p);
    assert q[..|q| - 1] == p;
  }

  /** The addresses read back from a set filled with `l`, starting empty:
      exactly the elements of `l`, no string twice, in first-occurrence order. */
  lemma CollectedAddresses(l: seq<Val>)
    ensures AddAll([], l) == KeepFirst(l)
    ensures NoDuplicateText(AddAll([], l))
    ensures forall x :: x in AddAll([], l) <==> x in l
  {
    AddAllKeepsFirst([], l);
    assert [] + l == l;
    KeepFirstNoDuplicateText(l);
    KeepFirstMembers(l);
  }

  /** Two accounts in Mumbai and one in Delhi leave two addresses. */
  lemma MumbaiDelhiMumbai()
    ensures AddAll([], [Text("Mumbai Address"), Text("Delhi Address"), Text("Mumbai Address")])
         == [Text("Mumbai Address"), Text("Delhi Address")]
  {
  }
}
