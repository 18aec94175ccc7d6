/** The few functions of Go's `strings` package that the text code uses. A string is the sequence of
    its Unicode scalar values. */
module Text {

  /** unicode.IsSpace */
  predicate IsSpace(c: char) {
    c == ' ' || c == '\t' || c == '\n' || c == '\r' || c == '\U{0B}' || c == '\U{0C}' || c == '\U{85}' || c == '\U{A0}'
    || c == '\U{1680}' || ('\U{2000}' <= c <= '\U{200A}') || c == '\U{2028}' || c == '\U{2029}' || c == '\U{202F}'
    || c == '\U{205F}' || c == '\U{3000}'
  }

  predicate AllSpace(s: string) {
    forall c | c in s :: IsSpace(c)
  }

  function TrimLeft(s: string): string {
    if s != "" && IsSpace(s[0]) then TrimLeft(s[1..]) else s
  }

  function TrimRight(s: string): string {
    if s != "" && IsSpace(s[|s| - 1]) then TrimRight(s[..|s| - 1]) else s
  }

  function TrimSpace(s: string): string {
    TrimRight(TrimLeft(s))
  }

  /** Empty, or with no white space at either end. */
  predicate Bare(s: string) {
    s == "" || (!IsSpace(s[0]) && !IsSpace(s[|s| - 1]))
  }

  lemma {:induction false} TrimLeftIs(a: string, t: string)
    requires AllSpace(a) && (t != "" ==> !IsSpace(t[0]))
    ensures TrimLeft(a + t) == t
  {
    if a == "" {
      assert a + t == t;
    } else {
      assert (a + t)[1..] == a[1..] + t;
      TrimLeftIs(a[1..], t);
    }
  }

  lemma {:induction false} TrimRightIs(t: string, b: string)
    requires AllSpace(b) && (t != "" ==> !IsSpace(t[|t| - 1]))
    ensures TrimRight(t + b) == t
  {
    if b == "" {
      assert t + b == t;
    } else {
      assert (t + b)[..|t + b| - 1] == t + b[..|b| - 1];
      TrimRightIs(t, b[..|b| - 1]);
    }
  }

  /** TrimSpace removes exactly the white space around a bare middle. */
  lemma TrimSpaceIs(a: string, t: string, b: string)
    requires AllSpace(a) && AllSpace(b) && Bare(t)
    ensures TrimSpace(a + t + b) == t
  {
    if t == "" {
      assert a + t + b == (a + b) + "";
      TrimLeftIs(a + b, "");
    } else {
      assert a + t + b == a + (t + b);
      TrimLeftIs(a, t + b);
      TrimRightIs(t, b);
    }
  }

  lemma {:induction false} TrimLeftSplits(s: string) returns (a: string)
    ensures s == a + TrimLeft(s) && AllSpace(a) && (TrimLeft(s) != "" ==> !IsSpace(TrimLeft(s)[0]))
  {
    if s != "" && IsSpace(s[0]) {
      var a' := TrimLeftSplits(s[1..]);
      a := [s[0]] + a';
    } else {
      a := "";
    }
  }

  lemma {:induction false} TrimRightSplits(s: string) returns (b: string)
    ensures s == TrimRight(s) + b && AllSpace(b) && (TrimRight(s) != "" ==> !IsSpace(TrimRight(s)[|TrimRight(s)| - 1]))
  {
    if s != "" && IsSpace(s[|s| - 1]) {
      var b' := TrimRightSplits(s[..|s| - 1]);
      b := b' + [s[|s| - 1]];
      assert s == s[..|s| - 1] + [s[|s| - 1]];
    } else {
      b := "";
    }
  }

  lemma TrimSpaceSplits(s: string) returns (a: string, b: string)
    ensures s == a + TrimSpace(s) + b && AllSpace(a) && AllSpace(b) && Bare(TrimSpace(s))
  {
    a := TrimLeftSplits(s);
    b := TrimRightSplits(TrimLeft(s));
    var t := TrimSpace(s);
    if t != "" {
      assert TrimLeft(s)[0] == t[0];
    }
    assert a + (t + b) == a + t + b;
  }

  lemma TrimSpaceIdempotent(s: string)
    ensures TrimSpace(TrimSpace(s)) == TrimSpace(s)
  {
    var a, b := TrimSpaceSplits(s);
    TrimSpaceIs("", TrimSpace(s), "");
    assert "" + TrimSpace(s) + "" == TrimSpace(s);
  }

  /** White space around a string does not change its TrimSpace. */
  lemma TrimSpaceIgnoresSpace(a: string, s: string, b: string)
    requires AllSpace(a) && AllSpace(b)
    ensures TrimSpace(a + s + b) == TrimSpace(s)
  {
    var a', b' := TrimSpaceSplits(s);
    TrimSpaceIs(a + a', TrimSpace(s), b' + b);
    assert a + s + b == (a + a') + TrimSpace(s) + (b' + b);
  }

  /** strings.ReplaceAll for a non-empty `before`. */
  function ReplaceAll(s: string, before: string, after: string): string
    requires before != ""
    decreases |s|
  {
    if s == "" then ""
    else if before <= s then after + ReplaceAll(s[|before|..], before, after)
    else [s[0]] + ReplaceAll(s[1..], before, after)
  }

  /** strings.Index: where `sep` first occurs, |s| + 1 when it does not. */
  function Index(s: string, sep: string): nat {
    if sep <= s then 0 else if s == "" then 1 else 1 + Index(s[1..], sep)
  }

  predicate Contains(s: string, sep: string) {
    Index(s, sep) <= |s|
  }

  lemma {:induction false} IndexFinds(s: string, sep: string)
    ensures Contains(s, sep) ==> sep <= s[Index(s, sep)..]
    ensures forall k :: 0 <= k < Index(s, sep) && k <= |s| ==> !(sep <= s[k..])
  {
    if !(sep <= s) && s != "" {
      IndexFinds(s[1..], sep);
      var n := Index(s[1..], sep);
      if Contains(s, sep) {
        assert s[1..][n..] == s[n + 1..];
      }
      forall k | 0 <= k < 1 + n && k <= |s|
        ensures !(sep <= s[k..])
      {
        if k > 0 {
          assert s[1..][k - 1..] == s[k..];
        }
      }
    }
  }

  lemma {:induction false} IndexIs(s: string, sep: string, i: nat)
    requires i <= |s| && sep <= s[i..]
    requires forall k :: 0 <= k < i ==> !(sep <= s[k..])
    ensures Index(s, sep) == i
    decreases i
  {
    if i > 0 {
      assert !(sep <= s[0..]);
      assert s[0..] == s;
      assert s[1..][i - 1..] == s[i..];
      forall k | 0 <= k < i - 1
        ensures !(sep <= s[1..][k..])
      {
        assert s[1..][k..] == s[k + 1..];
      }
      IndexIs(s[1..], sep, i - 1);
    }
  }

  /** Where the first line of `s` ends: at its first line feed, or at the end of the string. */
  function LineEnd(s: string): nat
    ensures LineEnd(s) <= |s|
    ensures forall k | 0 <= k < LineEnd(s) :: s[k] != '\n'
    ensures LineEnd(s) < |s| ==> s[LineEnd(s)] == '\n'
  {
    if s == "" || s[0] == '\n' then 0 else 1 + LineEnd(s[1..])
  }

  /** strings.Split(s, "\n") */
  function Lines(s: string): (lines: seq<string>)
    ensures lines != []
    decreases |s|
  {
    var n := LineEnd(s);
    if n == |s| then [s] else [s[..n]] + Lines(s[n + 1..])
  }

  /** strings.Join */
  function Joined(parts: seq<string>, sep: string): string {
    if parts == [] then "" else if |parts| == 1 then parts[0] else parts[0] + sep + Joined(parts[1..], sep)
  }

  /** Lines is the one way to cut a text at its line feeds. */
  lemma {:induction false} LinesCut(s: string)
    ensures Joined(Lines(s), "\n") == s && forall l | l in Lines(s) :: '\n' !in l
    decreases |s|
  {
    var n := LineEnd(s);
    if n < |s| {
      LinesCut(s[n + 1..]);
      assert s == s[..n] + "\n" + s[n + 1..];
      assert Lines(s)[1..] == Lines(s[n + 1..]);
    }
  }

  /** `sep` starts at i. */
  predicate StartsAt(s: string, sep: string, i: nat) {
    i + |sep| <= |s| && s[i..i + |sep|] == sep
  }

  predicate StartsFirstAt(s: string, sep: string, i: nat) {
    StartsAt(s, sep, i) && forall k: nat | k < i :: !StartsAt(s, sep, k)
  }

  predicate StartsNowhere(s: string, sep: string) {
    forall k: nat | k <= |s| :: !StartsAt(s, sep, k)
  }

  lemma StartsIsPrefix(s: string, sep: string, i: nat)
    requires i <= |s|
    ensures StartsAt(s, sep, i) <==> sep <= s[i..]
  {
    if sep <= s[i..] {
      assert s[i..][..|sep|] == s[i..i + |sep|];
    }
  }

  /** Index and Contains, from positions. */
  lemma IndexIsFirst(s: string, sep: string)
    ensures forall i: nat | StartsFirstAt(s, sep, i) :: Contains(s, sep) && Index(s, sep) == i
    ensures StartsNowhere(s, sep) ==> !Contains(s, sep)
    ensures Contains(s, sep) ==> StartsFirstAt(s, sep, Index(s, sep))
  {
    forall k: nat | k <= |s|
      ensures StartsAt(s, sep, k) <==> sep <= s[k..]
    {
      StartsIsPrefix(s, sep, k);
    }
    IndexFinds(s, sep);
    forall i: nat | StartsFirstAt(s, sep, i)
      ensures Contains(s, sep) && Index(s, sep) == i
    {
      IndexIs(s, sep, i);
    }
  }

  /** The parts of a text between the occurrences of `sep`, each found as far to the left as possible. */
  ghost predicate PartsOf(parts: seq<string>, s: string, sep: string) {
    && parts != [] && s == Joined(parts, sep)
    && (forall n | 0 <= n < |parts| - 1 :: StartsFirstAt(parts[n] + sep, sep, |parts[n]|))
    && StartsNowhere(parts[|parts| - 1], sep)
  }

  /** ReplaceAll keeps the parts and puts `after` in the place of every occurrence. */
  ghost predicate Replaced(s: string, before: string, after: string, out: string) {
    exists parts :: PartsOf(parts, s, before) && out == Joined(parts, after)
  }

  lemma {:induction false} ReplaceAllIs(s: string, before: string, after: string)
    requires before != ""
    ensures Replaced(s, before, after, ReplaceAll(s, before, after))
    decreases |s|
  {
    if s == "" {
      assert PartsOf([""], s, before) && Joined([""], after) == "";
    } else if before <= s {
      ReplaceAllIs(s[|before|..], before, after);
      PartFound(s, before, after, ReplaceAll(s[|before|..], before, after));
    } else {
      ReplaceAllIs(s[1..], before, after);
      PartGrows(s, before, after, ReplaceAll(s[1..], before, after));
    }
  }

  lemma PartFound(s: string, sep: string, after: string, out: string)
    requires sep != "" && sep <= s && Replaced(s[|sep|..], sep, after, out)
    ensures Replaced(s, sep, after, after + out)
  {
    var parts :| PartsOf(parts, s[|sep|..], sep) && out == Joined(parts, after);
    JoinedEmpty(parts, sep);
    JoinedEmpty(parts, after);
    EmptyPart(s, sep, parts);
  }

  lemma JoinedEmpty(parts: seq<string>, sep: string)
    requires parts != []
    ensures Joined([""] + parts, sep) == sep + Joined(parts, sep)
  {
    assert ([""] + parts)[1..] == parts;
    assert "" + sep == sep;
  }

  lemma EmptyPart(s: string, sep: string, parts: seq<string>)
    requires sep <= s && PartsOf(parts, s[|sep|..], sep)
    ensures PartsOf([""] + parts, s, sep)
  {
    var all := [""] + parts;
    JoinedEmpty(parts, sep);
    assert s == sep + s[|sep|..];
    assert "" + sep == sep && StartsFirstAt(sep, sep, 0);
    assert forall n | 0 < n < |all| :: all[n] == parts[n - 1];
  }

  lemma JoinedGrows(c: char, parts: seq<string>, sep: string)
    requires parts != []
    ensures Joined([[c] + parts[0]] + parts[1..], sep) == [c] + Joined(parts, sep)
  {
    assert ([[c] + parts[0]] + parts[1..])[1..] == parts[1..];
    if |parts| > 1 {
      assert [c] + parts[0] + sep + Joined(parts[1..], sep) == [c] + (parts[0] + sep + Joined(parts[1..], sep));
    }
  }

  lemma PartGrows(s: string, sep: string, after: string, out: string)
    requires sep != "" && s != "" && !(sep <= s) && Replaced(s[1..], sep, after, out)
    ensures Replaced(s, sep, after, [s[0]] + out)
  {
    var parts :| PartsOf(parts, s[1..], sep) && out == Joined(parts, after);
    var all := [[s[0]] + parts[0]] + parts[1..];
    JoinedGrows(s[0], parts, sep);
    JoinedGrows(s[0], parts, after);
    assert s == [s[0]] + s[1..];
    assert forall n | 0 < n < |all| :: all[n] == parts[n];
    if |parts| == 1 {
      NowhereInLonger(s[0], parts[0], sep, s);
    } else {
      assert s == all[0] + sep + Joined(parts[1..], sep);
      FirstInLonger(s[0], parts[0] + sep, sep, |parts[0]|, s);
      assert [s[0]] + (parts[0] + sep) == all[0] + sep;
    }
    assert PartsOf(all, s, sep);
  }

  /** One more character in front, with no occurrence starting there, moves the first one by one place. */
  lemma FirstInLonger(c: char, t: string, sep: string, n: nat, s: string)
    requires sep != "" && !(sep <= s) && [c] + t <= s && StartsFirstAt(t, sep, n)
    ensures StartsFirstAt([c] + t, sep, n + 1)
  {
    NotInFront([c] + t, sep, s);
    forall k: nat | 0 < k
      ensures StartsAt([c] + t, sep, k) <==> StartsAt(t, sep, k - 1)
    {
      StartsLater(c, t, sep, k - 1);
    }
  }

  lemma NowhereInLonger(c: char, t: string, sep: string, s: string)
    requires sep != "" && !(sep <= s) && [c] + t <= s && StartsNowhere(t, sep)
    ensures StartsNowhere([c] + t, sep)
  {
    NotInFront([c] + t, sep, s);
    forall k: nat | 0 < k <= |t| + 1
      ensures !StartsAt([c] + t, sep, k)
    {
      StartsLater(c, t, sep, k - 1);
    }
  }

  lemma NotInFront(u: string, sep: string, s: string)
    requires !(sep <= s) && u <= s
    ensures !StartsAt(u, sep, 0)
  {
    assert forall k | 0 <= k < |u| :: u[k] == s[k];
    assert |sep| <= |u| ==> u[0..|sep|] == s[..|sep|];
  }

  lemma StartsLater(c: char, t: string, sep: string, k: nat)
    ensures StartsAt([c] + t, sep, k + 1) <==> StartsAt(t, sep, k)
  {
    if k + |sep| <= |t| {
      assert ([c] + t)[k + 1..k + 1 + |sep|] == t[k..k + |sep|];
    }
  }

  lemma LinesOfLine(line: string, rest: string)
    requires '\n' !in line
    ensures Lines(line + "\n" + rest) == [line] + Lines(rest)
  {
    var s := line + "\n" + rest;
    var n := LineEnd(s);
    assert s[|line|] == '\n';
    assert forall k | 0 <= k < |line| :: s[k] == line[k] && line[k] in line;
    assert n == |line|;
    assert s[..n] == line && s[n + 1..] == rest;
  }
}
