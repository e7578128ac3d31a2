/** `ox_split`, `ox_str_join` and `ox_replace` on strings without NUL. */
module Strings {

  predicate OccursAt(s: string, pat: string, k: int) {
    0 <= k && k + |pat| <= |s| && s[k..k + |pat|] == pat
  }

  ghost predicate Contains(s: string, pat: string) {
    exists k :: OccursAt(s, pat, k)
  }

  /** The first occurrence from `i` on, or the length if there is none. */
  function First(s: string, pat: string, i: nat): (j: nat)
    requires pat != "" && i <= |s|
    ensures i <= j <= |s| && (j < |s| ==> OccursAt(s, pat, j))
    ensures forall k :: i <= k < j ==> !OccursAt(s, pat, k)
    decreases |s| - i
  {
    if i == |s| || OccursAt(s, pat, i) then i else First(s, pat, i + 1)
  }

  function Empties(n: nat): (e: seq<string>)
    ensures |e| == n && forall i :: 0 <= i < n ==> e[i] == ""
  {
    if n == 0 then [] else Empties(n - 1) + [""]
  }

  /** The pieces of `s` from position `i` on. */
  function SplitFrom(s: string, sep: string, i: nat): (pieces: seq<string>)
    requires sep != "" && i <= |s|
    ensures |pieces| > 0
    decreases |s| - i
  {
    var j := First(s, sep, i);
    if j == |s| then [s[i..]] else [s[i..j]] + SplitFrom(s, sep, j + |sep|)
  }

  /** An empty separator gives one empty piece for each character and one more. */
  function Split(s: string, sep: string): (pieces: seq<string>)
    ensures |pieces| > 0
  {
    if sep == "" then Empties(|s| + 1) else SplitFrom(s, sep, 0)
  }

  function Join(pieces: seq<string>, sep: string): string {
    if |pieces| == 0 then ""
    else if |pieces| == 1 then pieces[0]
    else pieces[0] + (sep + Join(pieces[1..], sep))
  }

  function ReplaceFrom(s: string, pat: string, to: string, i: nat): string
    requires pat != "" && i <= |s|
    decreases |s| - i
  {
    var j := First(s, pat, i);
    if j == |s| then s[i..] else s[i..j] + (to + ReplaceFrom(s, pat, to, j + |pat|))
  }

  function Replace(s: string, pat: string, to: string): string {
    if pat == "" then s else ReplaceFrom(s, pat, to, 0)
  }

  // ----- the loops -----

  /** The search loop of the split, and `strstr`. */
  method Search(s: string, pat: string, i: nat) returns (j: nat)
    requires pat != "" && i <= |s|
    ensures j == First(s, pat, i)
  {
    j := i;
    while j + |pat| <= |s|
      invariant i <= j <= |s| && First(s, pat, j) == First(s, pat, i)
    {
      if s[j..j + |pat|] == pat { return; }
      j := j + 1;
    }
    NoneLeft(s, pat, j);
    j := |s|;
  }

  lemma {:induction false} NoneLeft(s: string, pat: string, i: nat)
    requires pat != "" && i <= |s| < i + |pat|
    ensures First(s, pat, i) == |s|
    decreases |s| - i
  {
    if i < |s| { NoneLeft(s, pat, i + 1); }
  }

  /** The pieces so far and those from `i` on make up `whole`. */
  ghost predicate SplitUpTo(s: string, sep: string, i: nat, v: seq<string>, whole: seq<string>)
    requires sep != "" && i <= |s|
  {
    v + SplitFrom(s, sep, i) == whole
  }

  lemma SplitStep(s: string, sep: string, i: nat, j: nat, v: seq<string>, whole: seq<string>)
    requires sep != "" && i <= |s| && SplitUpTo(s, sep, i, v, whole) && j == First(s, sep, i)
    ensures if j < |s| then j + |sep| <= |s|
        && SplitUpTo(s, sep, j + |sep|, v + [s[i..j]], whole) else v + [s[i..j]] == whole
  {
    if j < |s| {
      SplitUnfold(s, sep, i);
      AppendPiece(v, s[i..j], SplitFrom(s, sep, j + |sep|));
    } else {
      assert s[i..j] == s[i..];
    }
  }

  lemma SplitUnfold(s: string, sep: string, i: nat)
    requires sep != "" && i <= |s| && First(s, sep, i) < |s|
    ensures var j := First(s, sep, i);
            j + |sep| <= |s| && SplitFrom(s, sep, i) == [s[i..j]] + SplitFrom(s, sep, j + |sep|)
  {
  }

  lemma AppendPiece(v: seq<string>, p: string, rest: seq<string>)
    ensures v + ([p] + rest) == v + [p] + rest
  {
  }

  /** `ox_split` */
  method SplitLoop(s: string, sep: string) returns (v: seq<string>)
    ensures v == Split(s, sep)
  {
    v := [];
    var n, ns := |s|, |sep|;
    var i := 0;
    ghost var whole := Split(s, sep);
    while i <= n
      invariant 0 <= i <= n
      invariant ns > 0 ==> SplitUpTo(s, sep, i, v, whole)
      invariant ns == 0 ==> v == Empties(i)
      decreases n + 1 - i
    {
      var j;
      if ns > 0 {
        j := Search(s, sep, i);
        SplitStep(s, sep, i, j, v, whole);
      } else {
        j := if i >= n then n else i;
        assert s[i..j] == "" && Empties(i + 1) == Empties(i) + [""];
      }
      v := v + [s[i..j]];
      if ns > 0 {
        i := j + ns;
      } else {
        if i >= n { break; }
        i := j + 1;
      }
      if ns > 0 && i > n { break; }
    }
  }

  /** `ox_str_join` */
  method JoinLoop(v: seq<string>, sep: string) returns (out: string)
    ensures out == Join(v, sep)
  {
    out := "";
    for i := 0 to |v|
      invariant out == Join(v[..i], sep)
    {
      JoinLast(v[..i], v[i], sep);
      assert v[..i + 1] == v[..i] + [v[i]];
      if i != 0 { out := out + sep; }
      out := out + v[i];
    }
    assert v[..|v|] == v;
  }

  lemma {:induction false} JoinLast(v: seq<string>, e: string, sep: string)
    ensures Join(v + [e], sep) == Join(v, sep) + (if |v| == 0 then "" else sep) + e
    decreases |v|
  {
    if |v| > 0 {
      assert (v + [e])[1..] == v[1..] + [e];
      JoinLast(v[1..], e, sep);
      JoinCons(v[0], v[1..] + [e], sep);
      assert [v[0]] + (v[1..] + [e]) == v + [e];
      if |v| == 1 {
        assert v[1..] == [] && "" + "" + e == e;
        Regroup("", v[0], sep, e);
      } else {
        Regroup(v[0], sep, Join(v[1..], sep), sep + e);
        assert Join(v[1..], sep) + sep + e == Join(v[1..], sep) + (sep + e);
        assert Join(v, sep) == v[0] + sep + Join(v[1..], sep);
      }
    }
  }

  /** What is written and what replacing from `i` on gives make up `whole`. */
  ghost predicate ReplacedUpTo(s: string, pat: string, to: string, i: nat, out: string, whole: string)
    requires pat != "" && i <= |s|
  {
    out + ReplaceFrom(s, pat, to, i) == whole
  }

  lemma ReplaceHit(s: string, pat: string, to: string, i: nat, hit: nat, out: string, whole: string)
    requires pat != "" && i <= |s| && ReplacedUpTo(s, pat, to, i, out, whole) && hit == First(s, pat, i) && hit < |s|
    ensures hit + |pat| <= |s| && ReplacedUpTo(s, pat, to, hit + |pat|, out + s[i..hit] + to, whole)
  {
    ReplaceUnfold(s, pat, to, i);
    Regroup(out, s[i..hit], to, ReplaceFrom(s, pat, to, hit + |pat|));
  }

  lemma ReplaceUnfold(s: string, pat: string, to: string, i: nat)
    requires pat != "" && i <= |s| && First(s, pat, i) < |s|
    ensures var j := First(s, pat, i);
            j + |pat| <= |s| && ReplaceFrom(s, pat, to, i) == s[i..j] + (to + ReplaceFrom(s, pat, to, j + |pat|))
  {
  }

  lemma ReplaceMiss(s: string, pat: string, to: string, i: nat, out: string, whole: string)
    requires pat != "" && i <= |s| && ReplacedUpTo(s, pat, to, i, out, whole) && First(s, pat, i) == |s|
    ensures out + s[i..] == whole
  {
  }

  lemma ReplaceEnd(s: string, pat: string, to: string, out: string, whole: string)
    requires pat != "" && ReplacedUpTo(s, pat, to, |s|, out, whole)
    ensures out == whole
  {
    assert s[|s|..] == "" && out + "" == out;
  }

  lemma ReplaceStart(s: string, pat: string, to: string)
    requires pat != ""
    ensures ReplacedUpTo(s, pat, to, 0, "", ReplaceFrom(s, pat, to, 0))
  {
    assert "" + ReplaceFrom(s, pat, to, 0) == ReplaceFrom(s, pat, to, 0);
  }

  /** `ox_replace` */
  method ReplaceLoop(s: string, pat: string, to: string) returns (out: string)
    ensures out == Replace(s, pat, to)
  {
    if pat == "" { return s; }
    out := ReplaceAll(s, pat, to);
  }

  /** Its loop, for a pattern that is not empty. */
  method ReplaceAll(s: string, pat: string, to: string) returns (out: string)
    requires pat != ""
    ensures ReplacedUpTo(s, pat, to, 0, "", out)
  {
    ghost var whole := ReplaceFrom(s, pat, to, 0);
    ReplaceStart(s, pat, to);
    out := "";
    var cur, nf := 0, |pat|;
    while cur < |s|
      invariant 0 <= cur <= |s| && ReplacedUpTo(s, pat, to, cur, out, whole)
    {
      var hit := Search(s, pat, cur);
      if hit == |s| {
        ReplaceMiss(s, pat, to, cur, out, whole);
        out := out + s[cur..];
        return;
      }
      ReplaceHit(s, pat, to, cur, hit, out, whole);
      out := out + s[cur..hit] + to;
      cur := hit + nf;
    }
    ReplaceEnd(s, pat, to, out, whole);
  }

  lemma Regroup(a: string, b: string, c: string, d: string)
    ensures a + (b + (c + d)) == a + b + c + d
  {
  }

  // ----- how they fit together -----

  lemma JoinCons(p: string, rest: seq<string>, sep: string)
    requires |rest| > 0
    ensures Join([p] + rest, sep) == p + (sep + Join(rest, sep))
  {
    assert ([p] + rest)[1..] == rest;
  }

  lemma {:induction false} JoinEmpties(n: nat)
    ensures Join(Empties(n), "") == ""
    decreases n
  {
    if n > 0 {
      JoinEmpties(n - 1);
      JoinLast(Empties(n - 1), "", "");
    }
  }

  /** Joining what was split gives the string back, unless the separator is
      empty and the string is not. */
  lemma JoinSplit(s: string, sep: string)
    ensures Join(Split(s, sep), sep) == s <==> sep != "" || s == ""
  {
    if sep == "" { JoinEmpties(|s| + 1); } else { JoinSplitFrom(s, sep, 0); }
  }

  lemma {:induction false} JoinSplitFrom(s: string, sep: string, i: nat)
    requires sep != "" && i <= |s|
    ensures Join(SplitFrom(s, sep, i), sep) == s[i..]
    decreases |s| - i
  {
    var j := First(s, sep, i);
    if j < |s| {
      JoinSplitFrom(s, sep, j + |sep|);
      JoinAfter(s, sep, i, sep);
      Cut(s, sep, i, j);
    }
  }

  /** Joining from a piece that is not the last. */
  lemma JoinAfter(s: string, sep: string, i: nat, glue: string)
    requires sep != "" && i <= |s| && First(s, sep, i) < |s|
    ensures var j := First(s, sep, i);
            Join(SplitFrom(s, sep, i), glue) == s[i..j] + (glue + Join(SplitFrom(s, sep, j + |sep|), glue))
  {
    var j := First(s, sep, i);
    JoinCons(s[i..j], SplitFrom(s, sep, j + |sep|), glue);
  }

  lemma Cut(s: string, sep: string, i: nat, j: nat)
    requires i <= j && OccursAt(s, sep, j)
    ensures s[i..] == s[i..j] + (sep + s[j + |sep|..])
  {
    assert s[i..] == s[i..j] + (s[j..j + |sep|] + s[j + |sep|..]);
  }

  /** No piece contains the separator. */
  lemma PiecesAreFree(s: string, sep: string, n: nat)
    requires sep != "" && n < |Split(s, sep)|
    ensures !Contains(Split(s, sep)[n], sep)
  {
    PieceIsFree(s, sep, 0, n);
  }

  /** An occurrence in a part of a string is one in the string. */
  lemma OccursWithin(s: string, sep: string, i: nat, j: nat, k: nat)
    requires i <= j <= |s|
    ensures OccursAt(s[i..j], sep, k) ==> OccursAt(s, sep, i + k) && i + k + |sep| <= j
  {
    if OccursAt(s[i..j], sep, k) {
      forall q | 0 <= q < |sep| ensures s[i + k..i + k + |sep|][q] == sep[q] {
        assert s[i..j][k..k + |sep|][q] == sep[q];
      }
    }
  }

  lemma {:induction false} PieceIsFree(s: string, sep: string, i: nat, n: nat)
    requires sep != "" && i <= |s| && n < |SplitFrom(s, sep, i)|
    ensures !Contains(SplitFrom(s, sep, i)[n], sep)
    decreases n
  {
    var j := First(s, sep, i);
    if n == 0 {
      forall k: nat ensures !OccursAt(s[i..j], sep, k) { OccursWithin(s, sep, i, j, k); }
      assert s[i..] == s[i..|s|];
    } else {
      PieceIsFree(s, sep, j + |sep|, n - 1);
      assert SplitFrom(s, sep, i) == [s[i..j]] + SplitFrom(s, sep, j + |sep|);
    }
  }

  /** Replacing is splitting on the pattern and joining with the replacement. */
  lemma ReplaceIsJoin(s: string, pat: string, to: string)
    requires pat != ""
    ensures Replace(s, pat, to) == Join(Split(s, pat), to)
  {
    ReplaceIsJoinFrom(s, pat, to, 0);
  }

  lemma {:induction false} ReplaceIsJoinFrom(s: string, pat: string, to: string, i: nat)
    requires pat != "" && i <= |s|
    ensures ReplaceFrom(s, pat, to, i) == Join(SplitFrom(s, pat, i), to)
    decreases |s| - i
  {
    var j := First(s, pat, i);
    if j < |s| {
      ReplaceIsJoinFrom(s, pat, to, j + |pat|);
      JoinAfter(s, pat, i, to);
    }
  }

  /** With an empty separator there is one empty piece more than characters; an
      empty pattern is not replaced. */
  lemma EmptyPattern(s: string, to: string)
    ensures Replace(s, "", to) == s && |Split(s, "")| == |s| + 1 && forall p :: p in Split(s, "") ==> p == ""
  {
  }
}
