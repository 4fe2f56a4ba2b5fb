/** Text operations the URL code is written with.

    Finding characters, and cutting a text at its slashes, with the facts about them the proofs need. */
module UrlText {
  import opened Options
  import opened Texts

  /** The index of the first c in s, or |s| when there is none. */
  function First(s: string, c: char): (n: nat)
    ensures n <= |s| && c !in s[..n] && (n < |s| ==> s[n] == c)
  {
    if s == "" then 0 else if s[0] == c then 0 else 1 + First(s[1..], c)
  }

  lemma FirstIs(s: string, c: char, n: nat)
    requires n <= |s| && c !in s[..n] && (n < |s| ==> s[n] == c)
    ensures First(s, c) == n
  {
    var m := First(s, c);
    assert forall x :: 0 <= x < m ==> s[x] == s[..m][x] != c;
    assert forall x :: 0 <= x < n ==> s[x] == s[..n][x] != c;
  }

  lemma LastIs(s: string, c: char, n: int)
    requires -1 <= n < |s| && (0 <= n ==> s[n] == c) && forall i :: n < i < |s| ==> s[i] != c
    ensures Last(s, c) == n
  {
  }

  /** The index of the last c in s, or -1. */
  function Last(s: string, c: char): (n: int)
    ensures -1 <= n < |s| && (0 <= n ==> s[n] == c) && forall i :: n < i < |s| ==> s[i] != c
  {
    if s == "" then -1
    else if s[|s| - 1] == c then |s| - 1
    else Last(s[..|s| - 1], c)
  }

  // ----- Slash-separated segments -----

  /** Cut at every slash. */
  function Segments(s: string): (segs: seq<string>)
    ensures |segs| > 0
  {
    var n := First(s, '/');
    if n == |s| then [s] else [s[..n]] + Segments(s[n + 1..])
  }

  /** Each segment with the slash before it. */
  function Render(segs: seq<string>): string {
    if segs == [] then "" else "/" + segs[0] + Render(segs[1..])
  }

  predicate SlashFree(segs: seq<string>) {
    forall i :: 0 <= i < |segs| ==> '/' !in segs[i]
  }

  lemma {:induction false} SegmentsSlashFree(s: string)
    ensures SlashFree(Segments(s))
    decreases |s|
  {
    var n := First(s, '/');
    if n < |s| {
      SegmentsSlashFree(s[n + 1..]);
    } else {
      assert s[..n] == s;
    }
  }

  lemma SegmentsCons(head: string, rest: string)
    requires '/' !in head
    ensures Segments(head + ("/" + rest)) == [head] + Segments(rest)
  {
    var s, n := head + ("/" + rest), |head|;
    assert s[n] == '/' && s[..n] == head && s[n + 1..] == rest;
    FirstIs(s, '/', n);
  }

  lemma SegmentsAlone(head: string)
    requires '/' !in head
    ensures Segments(head) == [head]
  {
    FirstIs(head, '/', |head|);
  }

  lemma RenderCons(segs: seq<string>)
    requires segs != []
    ensures Render(segs) == "/" + (segs[0] + Render(segs[1..]))
    ensures [segs[0]] + segs[1..] == segs
    ensures SlashFree(segs) ==> '/' !in segs[0] && SlashFree(segs[1..])
  {
  }

  lemma {:induction false} SegmentsOfRender(head: string, segs: seq<string>)
    requires '/' !in head && SlashFree(segs)
    ensures Segments(head + Render(segs)) == [head] + segs
    decreases |segs|
  {
    if segs == [] {
      assert head + Render(segs) == head;
      SegmentsAlone(head);
    } else {
      RenderCons(segs);
      SegmentsCons(head, segs[0] + Render(segs[1..]));
      SegmentsOfRender(segs[0], segs[1..]);
    }
  }

  lemma {:induction false} RenderAppend(a: seq<string>, b: seq<string>)
    ensures Render(a + b) == Render(a) + Render(b)
  {
    if a == [] {
      assert a + b == b;
    } else {
      assert (a + b)[1..] == a[1..] + b;
      RenderAppend(a[1..], b);
    }
  }

  lemma RenderOne(head: string, segs: seq<string>)
    ensures Render([head] + segs) == "/" + (head + Render(segs))
  {
    assert ([head] + segs)[1..] == segs;
  }

  lemma {:induction false} RenderSegments(s: string)
    ensures Render(Segments(s)) == "/" + s
    decreases |s|
  {
    var n := First(s, '/');
    if n < |s| {
      var head, rest := s[..n], s[n + 1..];
      CutAt(s, n);
      RenderSegments(rest);
      RenderOne(head, Segments(rest));
    } else {
      RenderAlone(s);
    }
  }

  lemma RenderAlone(s: string)
    ensures Render([s]) == "/" + s
  {
    assert [s][1..] == [];
  }
}
