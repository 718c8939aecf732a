// What may stand between the tokens of a document (server/src/Json.cpp:100-131): white space and, as an
// extension of section 2 of RFC 8259, comments to the end of the line and in /* */.
module JsonTrivia {
  datatype Trivium = Space(c: char) | LineComment(body: string) | BlockComment(body: string)

  predicate IsSpace(c: char) {
    c == ' ' || c == '\t' || c == '\n' || c == '\r'
  }

  predicate LineEnds(rest: string) {
    rest == "" || rest[0] == '\n'
  }

  // A block comment ends here.
  predicate Closes(s: string) {
    |s| >= 2 && s[0] == '*' && s[1] == '/'
  }

  // A block comment ends with the first star and slash.
  predicate ClosesFirst(body: string) {
    forall k | 0 <= k < |body| :: !Closes((body + "*/")[k..])
  }

  predicate TriviumOk(t: Trivium, rest: string) {
    match t
    case Space(c) => IsSpace(c)
    case LineComment(body) => '\n' !in body && LineEnds(rest)
    case BlockComment(body) => ClosesFirst(body)
  }

  function TriviumThen(t: Trivium, rest: string): string {
    match t
    case Space(c) => [c] + rest
    case LineComment(body) => "//" + (body + rest)
    case BlockComment(body) => "/*" + (body + ("*/" + rest))
  }

  function GapThen(g: seq<Trivium>, rest: string): string {
    if g == [] then rest else TriviumThen(g[0], GapThen(g[1..], rest))
  }

  predicate GapOk(g: seq<Trivium>, rest: string) {
    g == [] || (TriviumOk(g[0], GapThen(g[1..], rest)) && GapOk(g[1..], rest))
  }

  predicate CommentNext(s: string, mark: char) {
    |s| >= 2 && s[0] == '/' && s[1] == mark
  }

  predicate TriviumNext(s: string) {
    (s != "" && IsSpace(s[0])) || CommentNext(s, '/') || CommentNext(s, '*')
  }

  // Reading one trivium at a time finds the end of every gap.
  lemma {:induction false} GapSnoc(g: seq<Trivium>, t: Trivium, rest: string)
    requires GapOk(g, TriviumThen(t, rest)) && TriviumOk(t, rest)
    ensures GapThen(g + [t], rest) == GapThen(g, TriviumThen(t, rest)) && GapOk(g + [t], rest)
  {
    if g == [] {
      assert g + [t] == [t] && [t][1..] == [] && GapOk([], rest);
    } else {
      GapSnoc(g[1..], t, rest);
      assert (g + [t])[1..] == g[1..] + [t];
    }
  }

  // Whatever gap was written at `start`, g is its beginning and the rest of it comes next.
  ghost predicate InGap(start: string, g: seq<Trivium>, now: string) {
    forall g0: seq<Trivium>, rest0: string :: GapOk(g0, rest0) && !TriviumNext(rest0) && start == GapThen(g0, rest0) ==>
      |g| <= |g0| && g == g0[..|g|] && now == GapThen(g0[|g|..], rest0) && GapOk(g0[|g|..], rest0)
  }

  lemma InGapStart(start: string)
    ensures InGap(start, [], start)
  {
    forall g0: seq<Trivium>, rest0: string | GapOk(g0, rest0) && start == GapThen(g0, rest0)
      ensures start == GapThen(g0[0..], rest0) && GapOk(g0[0..], rest0)
    {
      assert g0[0..] == g0;
    }
  }

  // What comes next of a gap.
  lemma InGapNext(start: string, g: seq<Trivium>, now: string, g0: seq<Trivium>, rest0: string)
    requires InGap(start, g, now) && GapOk(g0, rest0) && !TriviumNext(rest0) && start == GapThen(g0, rest0)
    ensures TriviumNext(now) <==> g != g0
    ensures g == g0 ==> now == rest0
    ensures g != g0 ==> |g| < |g0| && TriviumOk(g0[|g|], GapThen(g0[|g| + 1..], rest0)) && now == TriviumThen(g0[|g|], GapThen(g0[|g| + 1..], rest0))
    ensures g != g0 ==> GapOk(g0[|g| + 1..], rest0)
  {
    var later := g0[|g|..];
    if |g| < |g0| {
      assert later[0] == g0[|g|] && later[1..] == g0[|g| + 1..];
      BeginsTrivium(later[0], GapThen(later[1..], rest0));
    } else {
      assert later == [] && g0[..|g|] == g0;
    }
  }

  lemma InGapStep(start: string, g: seq<Trivium>, now: string, t: Trivium, next: string)
    requires InGap(start, g, now) && TriviumNext(now)
    requires forall t0: Trivium, rest0: string :: TriviumOk(t0, rest0) && now == TriviumThen(t0, rest0) ==> t == t0 && next == rest0
    ensures InGap(start, g + [t], next)
  {
    hide TriviumOk, TriviumThen, TriviumNext, GapThen, GapOk;
    forall g0: seq<Trivium>, rest0: string | GapOk(g0, rest0) && !TriviumNext(rest0) && start == GapThen(g0, rest0)
      ensures |g| + 1 <= |g0| && g + [t] == g0[..|g| + 1] && next == GapThen(g0[|g| + 1..], rest0) && GapOk(g0[|g| + 1..], rest0)
    {
      InGapNext(start, g, now, g0, rest0);
    }
  }

  lemma InGapEnd(start: string, g: seq<Trivium>, now: string)
    requires InGap(start, g, now) && !TriviumNext(now)
    ensures forall g0: seq<Trivium>, rest0: string :: GapOk(g0, rest0) && !TriviumNext(rest0) && start == GapThen(g0, rest0) ==> g == g0 && now == rest0
  {
    forall g0: seq<Trivium>, rest0: string | GapOk(g0, rest0) && !TriviumNext(rest0) && start == GapThen(g0, rest0)
      ensures g == g0 && now == rest0
    {
      InGapNext(start, g, now, g0, rest0);
    }
  }

  lemma BeginsTrivium(t: Trivium, rest: string)
    requires TriviumOk(t, rest)
    ensures TriviumNext(TriviumThen(t, rest))
  {
  }

  // No gap was written if the next trivium cannot be read.
  lemma InGapNever(start: string, g: seq<Trivium>, now: string)
    requires InGap(start, g, now) && TriviumNext(now)
    requires forall t0: Trivium, rest0: string :: TriviumOk(t0, rest0) ==> now != TriviumThen(t0, rest0)
    ensures forall g0: seq<Trivium>, rest0: string :: GapOk(g0, rest0) && !TriviumNext(rest0) ==> start != GapThen(g0, rest0)
  {
    forall g0: seq<Trivium>, rest0: string | GapOk(g0, rest0) && !TriviumNext(rest0)
      ensures start != GapThen(g0, rest0)
    {
      if start == GapThen(g0, rest0) {
        InGapNext(start, g, now, g0, rest0);
        assert false;
      }
    }
  }

  // ---- Each kind has one reading ---------------------------------------------------------------------

  lemma OneSpace(now: string, next: string)
    requires now != "" && IsSpace(now[0]) && next == now[1..]
    ensures forall t0: Trivium, rest0: string :: TriviumOk(t0, rest0) && now == TriviumThen(t0, rest0) ==> t0 == Space(now[0]) && next == rest0
  {
    forall t0: Trivium, rest0: string | TriviumOk(t0, rest0) && now == TriviumThen(t0, rest0)
      ensures t0 == Space(now[0]) && next == rest0
    {
      assert now[0] == TriviumThen(t0, rest0)[0];
      assert t0.Space? && TriviumThen(t0, rest0)[1..] == rest0;
    }
  }

  lemma OneLineComment(now: string, body: string, next: string)
    requires now == "//" + (body + next) && '\n' !in body && LineEnds(next)
    ensures forall t0: Trivium, rest0: string :: TriviumOk(t0, rest0) && now == TriviumThen(t0, rest0) ==> t0 == LineComment(body) && next == rest0
  {
    forall t0: Trivium, rest0: string | TriviumOk(t0, rest0) && now == TriviumThen(t0, rest0)
      ensures t0 == LineComment(body) && next == rest0
    {
      assert now[0] == '/' && now[1] == '/' && now[2..] == body + next;
      assert TriviumThen(t0, rest0)[1] == now[1];
      assert t0.LineComment? && now[2..] == t0.body + rest0;
      SameLine(body, next, t0.body, rest0);
    }
  }

  lemma SameLine(a: string, b: string, c: string, d: string)
    requires a + b == c + d && '\n' !in a && '\n' !in c && LineEnds(b) && LineEnds(d)
    ensures a == c && b == d
  {
    if |a| < |c| {
      Overlap(a, b, c, d);
      assert false;
    }
    Overlap(c, d, a, b);
  }

  // Of two ways to split a text, the longer front continues into the other's back.
  lemma Overlap(a: string, b: string, c: string, d: string)
    requires a + b == c + d && |a| <= |c|
    ensures a == c[..|a|]
    ensures if |a| < |c| then b != "" && b[0] == c[|a|] else a == c && b == d
  {
    var t := a + b;
    assert t[..|a|] == a && t[..|c|] == c && t[|a|..] == b && t[|c|..] == d;
    assert |a| < |c| ==> t[|a|] == b[0];
  }

  lemma OneBlockComment(now: string, body: string, next: string)
    requires now == "/*" + (body + ("*/" + next)) && ClosesFirst(body)
    ensures forall t0: Trivium, rest0: string :: TriviumOk(t0, rest0) && now == TriviumThen(t0, rest0) ==> t0 == BlockComment(body) && next == rest0
  {
    forall t0: Trivium, rest0: string | TriviumOk(t0, rest0) && now == TriviumThen(t0, rest0)
      ensures t0 == BlockComment(body) && next == rest0
    {
      BlockReads(now, body + ("*/" + next), t0, rest0);
      SameBlock(body, next, t0.body, rest0);
    }
  }

  lemma BlockReads(now: string, tail: string, t: Trivium, rest: string)
    requires now == "/*" + tail == TriviumThen(t, rest) && TriviumOk(t, rest)
    ensures t.BlockComment? && tail == t.body + ("*/" + rest)
  {
    assert now[0] == '/' && now[1] == '*' && now[2..] == tail;
    assert TriviumThen(t, rest)[1] == '*';
  }

  lemma BlockCloses(now: string, tail: string, t: Trivium, rest: string)
    requires now == "/*" + tail == TriviumThen(t, rest) && TriviumOk(t, rest)
    ensures t.BlockComment? && |t.body| < |tail| && Closes(tail[|t.body|..])
  {
    BlockReads(now, tail, t, rest);
    var k := |t.body|;
    assert tail[k] == '*' && tail[k + 1] == '/';
  }

  lemma SameBlock(a: string, b: string, c: string, d: string)
    requires a + ("*/" + b) == c + ("*/" + d) && ClosesFirst(a) && ClosesFirst(c)
    ensures a == c && b == d
  {
    var t := a + ("*/" + b);
    if |a| < |c| {
      NotEarlier(t, a, b, c, d);
      assert false;
    }
    if |c| < |a| {
      NotEarlier(t, c, d, a, b);
      assert false;
    }
    assert t[..|a|] == a && t[..|c|] == c && t[|a| + 2..] == b && t[|c| + 2..] == d;
  }

  lemma NotEarlier(t: string, a: string, b: string, c: string, d: string)
    requires t == a + ("*/" + b) == c + ("*/" + d) && |a| < |c|
    ensures !ClosesFirst(c)
  {
    var s := c + "*/";
    assert t[|a|] == '*' && t[|a| + 1] == '/';
    assert s[|a|] == t[|a|] && s[|a| + 1] == t[|a| + 1];
    assert Closes(s[|a|..]);
  }
}
