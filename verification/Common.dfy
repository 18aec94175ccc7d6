/** What several components share. */
module Common {

  datatype Option<+T> = None | Some(value: T)

  function Elems<T>(s: seq<T>): set<T> {
    set x | x in s
  }

  /** All pieces, one after the other. */
  function Flat<T>(pieces: seq<seq<T>>): seq<T> {
    if pieces == [] then [] else Flat(pieces[..|pieces| - 1]) + pieces[|pieces| - 1]
  }

  lemma FlatNext<T>(pieces: seq<seq<T>>, k: nat)
    requires k < |pieces|
    ensures Flat(pieces[..k + 1]) == Flat(pieces[..k]) + pieces[k]
  {
    assert pieces[..k + 1][..k] == pieces[..k];
  }

  lemma FlatPlus<T>(pieces: seq<seq<T>>, last: seq<T>)
    ensures Flat(pieces + [last]) == Flat(pieces) + last
  {
    assert (pieces + [last])[..|pieces|] == pieces;
  }

  /** `ks` is the set `good`, in ascending order. */
  ghost predicate Lists(ks: seq<nat>, good: set<nat>) {
    (forall a, b | 0 <= a < b < |ks| :: ks[a] < ks[b]) && forall k: nat :: k in ks <==> k in good
  }

  /** The elements at the places in `good`, in order. */
  ghost predicate Picked<A(!new)>(s: seq<A>, good: set<nat>, out: seq<A>) {
    exists ks ::
      Lists(ks, good) && |out| == |ks| && forall j | 0 <= j < |ks| :: ks[j] < |s| && out[j] == s[ks[j]]
  }

  lemma PickedWithHead<A(!new)>(x: A, s: seq<A>, rest: set<nat>, good: set<nat>, out: seq<A>)
    requires Picked(s, rest, out) && forall k: nat :: k + 1 in good <==> k in rest
    ensures Picked([x] + s, good, (if 0 in good then [x] else []) + out)
  {
    var ks :| Lists(ks, rest) && |out| == |ks| && forall j | 0 <= j < |ks| :: ks[j] < |s| && out[j] == s[ks[j]];
    ListsWithHead(ks, rest, good);
    var ks', out' := WithHead(0 in good, ks), (if 0 in good then [x] else []) + out;
    assert Lists(ks', good) && |out'| == |ks'|;
    forall j | 0 <= j < |ks'|
      ensures ks'[j] < |[x] + s| && out'[j] == ([x] + s)[ks'[j]]
    {
    }
  }

  ghost function Where<A(!new)>(items: seq<A>, good: A -> bool): set<nat> {
    set k: nat | k < |items| && good(items[k])
  }

  /** One result for every good item, in order, and nothing else. */
  ghost predicate OneEach<A(!new), B(!new)>(items: seq<A>, good: A -> bool, f: A -> B, out: seq<B>) {
    exists chosen :: Picked(items, Where(items, good), chosen) && Mapped(chosen, f, out)
  }

  ghost predicate Mapped<A, B>(chosen: seq<A>, f: A -> B, out: seq<B>) {
    |out| == |chosen| && forall j | 0 <= j < |chosen| :: out[j] == f(chosen[j])
  }

  function Zip<A, B>(a: seq<A>, b: seq<B>): seq<(A, B)>
    requires |a| == |b|
  {
    seq(|a|, i requires 0 <= i < |a| => (a[i], b[i]))
  }

  lemma ZipTail<A, B>(a: seq<A>, b: seq<B>)
    requires |a| == |b| && a != []
    ensures Zip(a, b) == [(a[0], b[0])] + Zip(a[1..], b[1..])
  {
  }

  lemma OneEachOfNone<A(!new), B(!new)>(good: A -> bool, f: A -> B)
    ensures OneEach([], good, f, [])
  {
    var none: seq<A> := [];
    assert Lists([], Where(none, good));
    assert Picked(none, Where(none, good), none) && Mapped(none, f, []);
  }

  /** The same with one more item in front. */
  lemma OneMoreInFront<A(!new), B(!new)>(x: A, items: seq<A>, good: A -> bool, f: A -> B, out: seq<B>)
    requires OneEach(items, good, f, out)
    ensures OneEach([x] + items, good, f, (if good(x) then [f(x)] else []) + out)
  {
    var chosen :| Picked(items, Where(items, good), chosen) && Mapped(chosen, f, out);
    WhereWithHead(x, items, good);
    PickedWithHead(x, items, Where(items, good), Where([x] + items, good), chosen);
    MappedWithHead(x, good(x), chosen, f, out);
  }

  lemma WhereWithHead<A(!new)>(x: A, items: seq<A>, good: A -> bool)
    ensures 0 in Where([x] + items, good) <==> good(x)
    ensures forall k: nat :: k + 1 in Where([x] + items, good) <==> k in Where(items, good)
  {
    var all := [x] + items;
    forall k: nat
      ensures k + 1 in Where(all, good) <==> k in Where(items, good)
    {
      assert k < |items| ==> all[k + 1] == items[k];
    }
  }

  lemma MappedWithHead<A, B>(x: A, wanted: bool, chosen: seq<A>, f: A -> B, out: seq<B>)
    requires Mapped(chosen, f, out)
    ensures Mapped((if wanted then [x] else []) + chosen, f, (if wanted then [f(x)] else []) + out)
  {
  }

  /** The indices `ks` of the rest of a sequence, behind its head if that is wanted. */
  function WithHead(head: bool, ks: seq<nat>): seq<nat> {
    (if head then [0] else []) + seq(|ks|, j requires 0 <= j < |ks| => ks[j] + 1)
  }

  lemma ListsWithHead(ks: seq<nat>, rest: set<nat>, good: set<nat>)
    requires Lists(ks, rest) && forall k: nat :: k + 1 in good <==> k in rest
    ensures Lists(WithHead(0 in good, ks), good)
  {
    var all := WithHead(0 in good, ks);
    var n := if 0 in good then 1 else 0;
    forall k: nat
      ensures k in all <==> k in good
    {
      if k > 0 {
        var p: nat := k - 1;
        assert p + 1 in good <==> p in ks;
        if p in ks {
          var j :| 0 <= j < |ks| && ks[j] == p;
          assert all[n + j] == k;
        }
        if k in all {
          var j :| 0 <= j < |all| && all[j] == k;
          assert ks[j - n] == p;
        }
      }
    }
  }

  /** Two sequences grow in n turns, by what `done` allows for each turn. */
  ghost predicate InTurns<A(!new), B(!new)>(n: nat, xs: seq<A>, ys: seq<B>, done: (nat, seq<A>, seq<B>) -> bool) {
    if n == 0 then xs == [] && ys == []
    else exists i: nat, j: nat ::
      && i <= |xs| && j <= |ys|
      && InTurns(n - 1, xs[..i], ys[..j], done) && done(n - 1, xs[i..], ys[j..])
  }

  lemma OneMoreTurn<A(!new), B(!new)>(n: nat, xs: seq<A>, ys: seq<B>, done: (nat, seq<A>, seq<B>) -> bool,
                                      xs': seq<A>, ys': seq<B>)
    requires InTurns(n, xs, ys, done) && done(n, xs', ys')
    ensures InTurns(n + 1, xs + xs', ys + ys', done)
  {
    var i, j := |xs|, |ys|;
    assert (xs + xs')[..i] == xs && (xs + xs')[i..] == xs';
    assert (ys + ys')[..j] == ys && (ys + ys')[j..] == ys';
  }

  lemma Regroup<T>(a: seq<T>, b: seq<T>, c: seq<T>)
    ensures a + b + c == a + (b + c)
  {
  }

  lemma {:induction false} DistinctCount<T>(s: seq<T>)
    requires forall j, k | 0 <= j < k < |s| :: s[j] != s[k]
    ensures |Elems(s)| == |s|
  {
    if s != [] {
      var front, last := s[..|s| - 1], s[|s| - 1];
      DistinctCount(front);
      assert s == front + [last];
      assert Elems(s) == Elems(front) + {last};
      assert last !in front;
    }
  }
}
