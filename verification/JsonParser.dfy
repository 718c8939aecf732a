// The JSON reader (server/src/Json.cpp:65-352): the scanner of numbers, strings and what stands between tokens, and
// the parser of values, lists and documents. Each reads exactly what the grammar allows, and means what it says.
module JsonParser {
  import opened Wrappers
  import opened Arithmetic
  import opened JsonNumber
  import opened JsonString
  import opened JsonTrivia
  import opened JsonGrammar

  // The position a reader of the file would give: lines from 1, columns from 1.
  function LineAt(text: string, pos: nat): nat
    requires pos <= |text|
  {
    if pos == 0 then 1 else LineAt(text, pos - 1) + if text[pos - 1] == '\n' then 1 else 0
  }

  function ColumnAt(text: string, pos: nat): nat
    requires pos <= |text|
  {
    if pos == 0 || text[pos - 1] == '\n' then 1 else ColumnAt(text, pos - 1) + 1
  }

  class Parser {
    const text: string
    var pos: nat
    var line: nat
    var column: nat

    constructor (text: string)
      ensures Valid() && Rest() == text
    {
      this.text, pos, line, column := text, 0, 1, 1;
    }

    ghost predicate Valid()
      reads this
    {
      pos <= |text| && line == LineAt(text, pos) && column == ColumnAt(text, pos)
    }

    ghost function Rest(): string
      requires Valid()
      reads this
    {
      text[pos..]
    }

    predicate AtEnd()
      reads this
    {
      pos >= |text|
    }

    function Peek(): char
      requires pos < |text|
      reads this
    {
      text[pos]
    }

    method Take() returns (c: char)
      requires Valid() && Rest() != ""
      modifies this
      ensures Valid() && old(Rest()) == [c] + Rest() && pos == old(pos) + 1
    {
      c := text[pos];
      pos := pos + 1;
      if c == '\n' {
        line, column := line + 1, 1;
      } else {
        column := column + 1;
      }
    }

    // ---- Trivia ------------------------------------------------------------------------------------

    // White space and comments, as far as they go. Refused only for a comment that is never closed.
    method SkipTrivia() returns (accepted: bool, ghost g: seq<Trivium>)
      requires Valid()
      modifies this
      ensures accepted ==> Valid() && pos >= old(pos) && old(Rest()) == GapThen(g, Rest()) && GapOk(g, Rest()) && !TriviumNext(Rest())
      ensures forall g0: seq<Trivium>, rest0 :: GapOk(g0, rest0) && !TriviumNext(rest0) && old(Rest()) == GapThen(g0, rest0) ==>
                accepted && g == g0 && Rest() == rest0
    {
      hide LineAt, ColumnAt, GapThen, GapOk, InGap, TriviumOk, TriviumThen;
      ghost var start := Rest();
      InGapStart(start);
      NoGap(start);
      g := [];
      while !AtEnd() && (IsSpace(Peek()) || (Peek() == '/' && pos + 1 < |text| && (text[pos + 1] == '/' || text[pos + 1] == '*')))
        invariant Valid() && pos >= old(pos) && start == GapThen(g, Rest()) && GapOk(g, Rest()) && InGap(start, g, Rest())
        decreases |text| - pos
      {
        ghost var now := Rest();
        ghost var t;
        var closed := true;
        if IsSpace(Peek()) {
          t := SkipSpace();
        } else if text[pos + 1] == '/' {
          t := SkipLine();
        } else {
          closed, t := SkipBlock();
        }
        if !closed {
          InGapNever(start, g, now);
          return false, g;
        }
        InGapStep(start, g, now, t, Rest());
        GapSnoc(g, t, Rest());
        g := g + [t];
      }
      accepted := true;
      InGapEnd(start, g, Rest());
    }

    method SkipSpace() returns (ghost t: Trivium)
      requires Valid() && Rest() != "" && IsSpace(Rest()[0])
      modifies this
      ensures Valid() && TriviumOk(t, Rest()) && old(Rest()) == TriviumThen(t, Rest()) && pos > old(pos)
      ensures forall t0: Trivium, rest0: string :: TriviumOk(t0, rest0) && old(Rest()) == TriviumThen(t0, rest0) ==> t == t0 && Rest() == rest0
    {
      hide LineAt, ColumnAt;
      var c := Take();
      OneSpace(old(Rest()), Rest());
      t := Space(c);
    }

    method SkipLine() returns (ghost t: Trivium)
      requires Valid() && CommentNext(Rest(), '/')
      modifies this
      ensures Valid() && TriviumOk(t, Rest()) && old(Rest()) == TriviumThen(t, Rest()) && pos > old(pos)
      ensures forall t0: Trivium, rest0: string :: TriviumOk(t0, rest0) && old(Rest()) == TriviumThen(t0, rest0) ==> t == t0 && Rest() == rest0
    {
      hide LineAt, ColumnAt;
      ghost var now, tail := Rest(), text[pos + 2..];
      assert now == "//" + tail;
      var _ := Take();
      var _ := Take();
      assert Rest() == tail;
      ghost var body := SkipToLineEnd();
      t := LineComment(body);
      OneLineComment(now, body, Rest());
    }

    method SkipToLineEnd() returns (ghost body: string)
      requires Valid()
      modifies this
      ensures Valid() && old(Rest()) == body + Rest() && '\n' !in body && LineEnds(Rest()) && pos >= old(pos)
    {
      hide LineAt, ColumnAt;
      body := "";
      while !AtEnd() && Peek() != '\n'
        invariant Valid() && old(Rest()) == body + Rest() && '\n' !in body && pos >= old(pos)
        decreases |text| - pos
      {
        var c := Take();
        body := body + [c];
      }
    }

    method SkipBlock() returns (closed: bool, ghost t: Trivium)
      requires Valid() && CommentNext(Rest(), '*')
      modifies this
      ensures closed ==> Valid() && TriviumOk(t, Rest()) && old(Rest()) == TriviumThen(t, Rest()) && pos > old(pos)
      ensures forall t0: Trivium, rest0: string :: TriviumOk(t0, rest0) && old(Rest()) == TriviumThen(t0, rest0) ==> closed && t == t0 && Rest() == rest0
    {
      hide LineAt, ColumnAt;
      var startLine, startColumn := line, column;
      ghost var now, tail := Rest(), text[pos + 2..];
      assert now == "/*" + tail;
      var _ := Take();
      var _ := Take();
      ghost var body := SkipBody();
      t := BlockComment(body);
      if AtEnd() {
        line, column := startLine, startColumn;
        NeverClosed(now, tail);
        return false, t;
      }
      closed := true;
      ghost var close := Rest();
      assert close == "*/" + close[2..];
      var _ := Take();
      var _ := Take();
      assert Rest() == close[2..];
      FirstClose(tail, body, Rest());
      OneBlockComment(now, body, Rest());
    }

    // Up to the first star and slash, or the end.
    method SkipBody() returns (ghost body: string)
      requires Valid()
      modifies this
      ensures Valid() && old(Rest()) == body + Rest() && pos >= old(pos) && (Rest() == "" || Closes(Rest()))
      ensures forall k | 0 <= k < |body| :: !Closes(old(Rest())[k..])
    {
      hide LineAt, ColumnAt;
      ghost var tail := Rest();
      body := "";
      while !AtEnd() && !(Peek() == '*' && pos + 1 < |text| && text[pos + 1] == '/')
        invariant Valid() && tail == body + Rest() && pos >= old(pos) && forall k | 0 <= k < |body| :: !Closes(tail[k..])
        decreases |text| - pos
      {
        assert tail[|body|..] == Rest();
        var c := Take();
        body := body + [c];
      }
    }

    // ---- Numbers -----------------------------------------------------------------------------------

    // Digits as long as there are any. `seen` are those of the same number already taken; only 18 may count.
    method TakeDigits(mantissa: nat, digits: nat, ghost seen: string) returns (accepted: bool, m: nat, n: nat, count: nat, ghost taken: string)
      requires Valid() && AllDigits(seen) && mantissa == NatOf(seen) && digits == Significant(seen) <= MAX_DIGITS
      modifies this
      ensures Valid() && AllDigits(taken)
      ensures accepted ==> old(Rest()) == taken + Rest() && !DigitNext(Rest()) && count == |taken|
      ensures accepted ==> m == NatOf(seen + taken) && n == Significant(seen + taken) <= MAX_DIGITS
      ensures forall d0, rest0 :: AllDigits(d0) && !DigitNext(rest0) && old(Rest()) == d0 + rest0 ==>
                (accepted <==> Significant(seen + d0) <= MAX_DIGITS) && (accepted ==> taken == d0 && Rest() == rest0)
    {
      hide NatOf, Significant, LineAt, ColumnAt;
      ghost var start := Rest();
      m, n, count, taken := mantissa, digits, 0, "";
      assert seen + "" == seen;
      while !AtEnd() && IsDigit(Peek())
        invariant Valid() && AllDigits(taken) && start == taken + Rest() && count == |taken|
        invariant m == NatOf(seen + taken) && n == Significant(seen + taken) <= MAX_DIGITS
        decreases |text| - pos
      {
        var d := Take();
        OneDigitMore(seen, taken, d, start, Rest());
        taken := taken + [d];
        count := count + 1;
        if !(m == 0 && d == '0') {
          n := n + 1;
          if n > MAX_DIGITS {
            TooMany(seen, taken, start, Rest());
            return false, 0, 0, 0, "";
          }
        }
        m := m * 10 + DigitOf(d);
      }
      accepted := true;
      AllMunched(start, taken, Rest());
    }

    // The digits before the point: a single 0, or no leading zero.
    method TakeWhole() returns (accepted: bool, m: nat, n: nat, ghost whole: string)
      requires Valid() && DigitNext(Rest())
      modifies this
      ensures Valid() && WholeOk(whole)
      ensures accepted ==> old(Rest()) == whole + Rest() && !DigitNext(Rest()) && m == NatOf(whole) && n == Significant(whole) <= MAX_DIGITS
      ensures forall w0, rest0 :: WholeOk(w0) && !DigitNext(rest0) && old(Rest()) == w0 + rest0 ==>
                (accepted <==> Significant(w0) <= MAX_DIGITS) && (accepted ==> whole == w0 && Rest() == rest0)
    {
      hide NatOf, Significant, LineAt, ColumnAt;
      NoDigits();
      if Peek() == '0' {
        whole := "0";
        var _ := Take();
        AloneZero(old(Rest()), Rest());
        if !AtEnd() && IsDigit(Peek()) {
          return false, 0, 0, "0";
        }
        return true, 0, 0, "0";
      }
      ghost var taken;
      var count;
      accepted, m, n, count, taken := TakeDigits(0, 0, "");
      assert forall d0: string :: "" + d0 == d0;
      whole := if accepted then taken else "0";
    }

    // The point and what is behind it, if there is one.
    method TakeFraction(mantissa: nat, digits: nat, ghost whole: string) returns (accepted: bool, m: nat, n: nat, scale: nat, ghost fraction: string)
      requires Valid() && !DigitNext(Rest()) && AllDigits(whole) && mantissa == NatOf(whole) && digits == Significant(whole) <= MAX_DIGITS
      modifies this
      ensures Valid() && AllDigits(fraction)
      ensures accepted ==> old(Rest()) == FractionThen(fraction, Rest()) && !DigitNext(Rest()) && (fraction == "" ==> !PointNext(Rest()))
      ensures accepted ==> m == NatOf(whole + fraction) && n == Significant(whole + fraction) <= MAX_DIGITS && scale == |fraction|
      ensures forall f0, rest0 :: AllDigits(f0) && !DigitNext(rest0) && (f0 == "" ==> !PointNext(rest0)) && old(Rest()) == FractionThen(f0, rest0) ==>
                (accepted <==> Significant(whole + f0) <= MAX_DIGITS) && (accepted ==> fraction == f0 && Rest() == rest0)
    {
      hide NatOf, Significant, LineAt, ColumnAt;
      assert whole + "" == whole;
      if AtEnd() || Peek() != '.' {
        return true, mantissa, digits, 0, "";
      }
      fraction := "";
      var _ := Take();
      assert forall b: string :: ("." + b)[1..] == b;
      if AtEnd() || !IsDigit(Peek()) {
        return false, 0, 0, 0, "";
      }
      accepted, m, n, scale, fraction := TakeDigits(mantissa, digits, whole);
    }

    // The digits of an exponent, at most 30.
    method TakeExponentDigits() returns (accepted: bool, e: nat, ghost taken: string)
      requires Valid() && DigitNext(Rest())
      modifies this
      ensures Valid() && AllDigits(taken) && taken != ""
      ensures accepted ==> old(Rest()) == taken + Rest() && !DigitNext(Rest()) && e == NatOf(taken) <= MAX_EXPONENT
      ensures forall d0, rest0 :: AllDigits(d0) && !DigitNext(rest0) && old(Rest()) == d0 + rest0 ==>
                (accepted <==> NatOf(d0) <= MAX_EXPONENT) && (accepted ==> taken == d0 && Rest() == rest0)
    {
      hide NatOf, Significant, LineAt, ColumnAt;
      ghost var start := Rest();
      NoDigits();
      e, taken := 0, "";
      while !AtEnd() && IsDigit(Peek())
        invariant Valid() && AllDigits(taken) && start == taken + Rest() && e == NatOf(taken) <= MAX_EXPONENT
        decreases |text| - pos
      {
        var d := Take();
        NoneSeen(taken, d);
        OneDigitMore("", taken, d, start, Rest());
        taken := taken + [d];
        e := e * 10 + DigitOf(d);
        if e > MAX_EXPONENT {
          TooLarge(taken, start, Rest());
          return false, 0, taken;
        }
      }
      accepted := true;
      AllMunched(start, taken, Rest());
    }

    method TakeExponent() returns (accepted: bool, e: int, ghost x: Option<Exponent>)
      requires Valid() && !DigitNext(Rest())
      modifies this
      ensures Valid() && (x.Some? ==> ExponentOk(x.value))
      ensures accepted ==> old(Rest()) == ExponentThen(x, Rest()) && !DigitNext(Rest()) && (x.None? ==> !MarkNext(Rest()))
      ensures accepted ==> e == ExponentOf(x) && (x.Some? ==> NatOf(x.value.digits) <= MAX_EXPONENT)
      ensures forall x0: Option<Exponent>, rest0 :: (if x0.Some? then ExponentOk(x0.value) else !MarkNext(rest0)) && !DigitNext(rest0) && old(Rest()) == ExponentThen(x0, rest0) ==>
                (accepted <==> (x0.Some? ==> NatOf(x0.value.digits) <= MAX_EXPONENT)) && (accepted ==> x == x0 && Rest() == rest0)
    {
      hide NatOf, Significant, LineAt, ColumnAt;
      ghost var start := Rest();
      x := None;
      if AtEnd() || !(Peek() == 'e' || Peek() == 'E') {
        return true, 0, None;
      }
      var mark := Take();
      var negative;
      ghost var sign, digits;
      negative, sign := TakeSign();
      ExponentParts(start, mark, sign, Rest());
      if AtEnd() || !IsDigit(Peek()) {
        return false, 0, None;
      }
      accepted, e, digits := TakeExponentDigits();
      if accepted {
        x := Some(Exponent(mark, sign, digits));
        e := if negative then -e else e;
      }
    }

    method TakeSign() returns (negative: bool, ghost sign: string)
      requires Valid()
      modifies this
      ensures Valid() && old(Rest()) == sign + Rest() && (negative <==> sign == "-")
      ensures sign == "+" || sign == "-" || (sign == "" && (Rest() == "" || (Rest()[0] != '+' && Rest()[0] != '-')))
    {
      negative, sign := false, "";
      if !AtEnd() && (Peek() == '+' || Peek() == '-') {
        var c := Take();
        negative, sign := c == '-', [c];
      }
    }

    // A number: its exact value in canonical form. It is accepted exactly if it is within the limits.
    method ParseNumber() returns (d: Option<Decimal>, ghost l: Literal)
      requires Valid() && Rest() != "" && (Rest()[0] == '-' || IsDigit(Rest()[0]))
      modifies this
      ensures Valid() && LiteralOk(l)
      ensures d.Some? ==> old(Rest()) == LiteralThen(l, Rest()) && Ends(l, Rest()) && WithinLimits(l)
      ensures d.Some? ==> Denotes(d.value, l) && Canonical(d.value) && Fits(d.value.mantissa)
      ensures forall l0, rest0 :: LiteralOk(l0) && Ends(l0, rest0) && old(Rest()) == LiteralThen(l0, rest0) ==>
                (d.Some? <==> WithinLimits(l0)) && (d.Some? ==> l == l0 && Rest() == rest0)
    {
      hide NatOf, Significant, Pow10, Shifted, LineAt, ColumnAt, WithinLimits, Denotes, Canonical, Fits, LiteralOk, DigitsFit, WithSign, Ends, MagnitudeThen, ExponentOf;
      ghost var start := Rest();
      ZeroIsLiteral();
      d, l := None, Literal(false, "0", "", None);
      var negative := false;
      if Peek() == '-' {
        var _ := Take();
        negative := true;
      }
      Signed(start, negative, Rest());
      if AtEnd() || !IsDigit(Peek()) {
        return;
      }
      var accepted, mantissa, scale;
      accepted, mantissa, scale, l := TakeMagnitude(negative);
      MagnitudeLimits();
      if !accepted {
        return;
      }
      var n := Normalise(mantissa, scale);
      NormalDenotes(l, mantissa, n);
      d := if n.None? then None else Some(WithSign(negative, n.value));
    }

    // Everything behind the sign.
    method TakeMagnitude(negative: bool) returns (accepted: bool, mantissa: nat, scale: int, ghost l: Literal)
      requires Valid() && DigitNext(Rest())
      modifies this
      ensures Valid() && LiteralOk(l) && l.negative == negative
      ensures accepted ==> old(Rest()) == MagnitudeThen(l, Rest()) && Ends(l, Rest()) && DigitsFit(l)
      ensures accepted ==> mantissa == NatOf(l.whole + l.fraction) <= MAX_MANTISSA && scale == |l.fraction| - ExponentOf(l.exponent)
      ensures forall l0, rest0 :: LiteralOk(l0) && Ends(l0, rest0) && l0.negative == negative && old(Rest()) == MagnitudeThen(l0, rest0) ==>
                (accepted <==> DigitsFit(l0)) && (accepted ==> l == l0 && Rest() == rest0)
    {
      hide NatOf, Significant, Pow10, LineAt, ColumnAt, FractionThen, ExponentThen, DigitNext, MarkNext, PointNext, IsDigit, Parser.Valid, Parser.Rest;
      l := Literal(negative, "0", "", None);
      ZeroIsWhole();
      var digits, fractionDigits, exponent;
      ghost var whole, fraction, x;
      accepted, mantissa, digits, whole := TakeWhole();
      FrontEnds();
      WholeLimits();
      if !accepted {
        return false, 0, 0, l;
      }
      accepted, mantissa, digits, fractionDigits, fraction := TakeFraction(mantissa, digits, whole);
      if !accepted {
        return false, 0, 0, l;
      }
      ghost var back := Rest();
      accepted, exponent, x := TakeExponent();
      if !accepted {
        return false, 0, 0, l;
      }
      EndsThere(fraction, x, back, Rest());
      l := Literal(negative, whole, fraction, x);
      scale := fractionDigits - exponent;
      EighteenDigits(whole + fraction);
    }

    // ---- Strings -----------------------------------------------------------------------------------

    // Exactly four hexadecimal digits.
    method ParseHex4() returns (accepted: bool, v: nat, ghost hex: string)
      requires Valid()
      modifies this
      ensures Valid()
      ensures accepted ==> Code(hex) && old(Rest()) == hex + Rest() && v == HexValue(hex)
      ensures forall h0: string, rest0 :: Code(h0) && old(Rest()) == h0 + rest0 ==> accepted && hex == h0 && Rest() == rest0
    {
      hide LineAt, ColumnAt, HexDigit;
      ghost var start := Rest();
      v, hex := 0, "";
      for i := 0 to 4
        invariant Valid() && |hex| == i && AllHex(hex) && start == hex + Rest() && v == HexValue(hex)
      {
        if AtEnd() || HexDigit(Peek()) < 0 {
          NotFour(start, hex, Rest());
          return false, 0, "";
        }
        var d := HexDigit(Peek());
        var c := Take();
        hex := hex + [c];
        assert hex[..i] + [c] == hex;
        v := v * 16 + d;
      }
      accepted := true;
      forall h0: string, rest0 | Code(h0) && start == h0 + rest0
        ensures hex == h0 && Rest() == rest0
      {
        Overlap(hex, Rest(), h0, rest0);
      }
    }

    // What stands behind a backslash.
    method TakeEscape() returns (accepted: bool, out: string, ghost p: Piece)
      requires Valid()
      modifies this
      ensures Valid()
      ensures accepted ==> PieceOk(p) && "\\" + old(Rest()) == PieceThen(p, Rest()) && out == Meaning(p)
      ensures forall p0: Piece, rest0 :: PieceOk(p0) && "\\" + old(Rest()) == PieceThen(p0, rest0) ==> accepted && p == p0 && Rest() == rest0
    {
      hide LineAt, ColumnAt, HexValue, Meaning, Utf8;
      p := Short('n');
      if AtEnd() {
        BehindNothing();
        return false, "", p;
      }
      var e := Take();
      Behind(old(Rest()), e, Rest());
      if e == 'u' {
        accepted, out, p := TakeUnicode();
      } else if e == '"' || e == '\\' || e == '/' || e == 'b' || e == 'f' || e == 'n' || e == 'r' || e == 't' {
        accepted, out, p := true, [Unescaped(e)], Short(e);
        ShortMeans(e);
      } else {
        accepted, out := false, "";
      }
    }

    // A code point in hexadecimal; beyond the first 65536 a pair of surrogates.
    method TakeUnicode() returns (accepted: bool, out: string, ghost p: Piece)
      requires Valid()
      modifies this
      ensures Valid()
      ensures accepted ==> (p.Escape? || p.Pair?) && PieceOk(p) && UnicodeThen(p, Rest()) == old(Rest()) && out == Meaning(p)
      ensures forall p0: Piece, rest0 :: PieceOk(p0) && (p0.Escape? || p0.Pair?) && old(Rest()) == UnicodeThen(p0, rest0) ==>
                accepted && p == p0 && Rest() == rest0
    {
      hide LineAt, ColumnAt, HexValue, AllHex, Utf8, Code, Parser.Valid, Parser.Rest;
      p := Short('n');
      out := "";
      var cp, low;
      ghost var high, second;
      accepted, cp, high := ParseHex4();
      if !accepted {
        return false, "", p;
      }
      CodeIsSmall(high);
      if 0xD800 <= cp <= 0xDBFF {
        accepted, low, second := TakeLow();
        if !accepted {
          return false, "", p;
        }
        return true, Utf8(0x1_0000 + (cp - 0xD800) * 1024 + (low - 0xDC00)), Pair(high, second);
      }
      if 0xDC00 <= cp <= 0xDFFF {
        return false, "", p;
      }
      return true, Utf8(cp), Escape(high);
    }

    // The second half of a surrogate pair.
    method TakeLow() returns (accepted: bool, low: nat, ghost second: string)
      requires Valid()
      modifies this
      ensures Valid()
      ensures accepted ==> Code(second) && old(Rest()) == "\\" + ("u" + (second + Rest())) && 0xDC00 <= low == HexValue(second) <= 0xDFFF
      ensures forall s0: string, rest0 :: Code(s0) && 0xDC00 <= HexValue(s0) <= 0xDFFF && old(Rest()) == "\\" + ("u" + (s0 + rest0)) ==>
                accepted && second == s0 && Rest() == rest0
    {
      hide LineAt, ColumnAt, HexValue, AllHex, Code;
      SecondHalf(Rest());
      if pos + 1 >= |text| || Peek() != '\\' || text[pos + 1] != 'u' {
        return false, 0, "";
      }
      ghost var tail, more := Rest(), text[pos + 2..];
      assert tail == "\\" + ("u" + more) && tail[2..] == more;
      var _ := Take();
      var _ := Take();
      assert Rest() == more;
      accepted, low, second := ParseHex4();
      if accepted && (low < 0xDC00 || low > 0xDFFF) {
        return false, 0, "";
      }
    }

    // One character or escape of a string.
    method TakePiece() returns (accepted: bool, out: string, ghost p: Piece)
      requires Valid() && Rest() != "" && Rest()[0] != '"'
      modifies this
      ensures Valid()
      ensures accepted ==> PieceOk(p) && old(Rest()) == PieceThen(p, Rest()) && out == Meaning(p)
      ensures forall p0: Piece, rest0 :: PieceOk(p0) && old(Rest()) == PieceThen(p0, rest0) ==> accepted && p == p0 && Rest() == rest0
    {
      hide LineAt, ColumnAt, HexValue, Utf8, Code;
      p := Short('n');
      var c := Take();
      OrRaw(old(Rest()), c, Rest());
      if c as int < 0x20 {
        return false, "", p;
      }
      if c != '\\' {
        return true, [c], Raw(c);
      }
      accepted, out, p := TakeEscape();
    }

    // A string between its quotes. Exactly the well-formed ones are accepted, and what was printed for a
    // sequence of code points comes back as their UTF-8.
    method ParseString() returns (out: Option<string>, ghost ps: seq<Piece>)
      requires Valid() && Rest() != "" && Rest()[0] == '"'
      modifies this
      ensures Valid() && AllOk(ps)
      ensures out.Some? ==> old(Rest()) == StringThen(ps, Rest()) && out.value == Meanings(ps)
      ensures forall ps0: seq<Piece>, rest0 :: AllOk(ps0) && old(Rest()) == StringThen(ps0, rest0) ==> out.Some? && ps == ps0 && Rest() == rest0
      ensures forall cps: seq<nat>, ascii: bool, rest0 :: AllScalar(cps) && old(Rest()) == StringThen(PrintedAll(cps, ascii), rest0) ==>
                out == Some(Utf8All(cps)) && Rest() == rest0
    {
      hide LineAt, ColumnAt, PiecesThen, StringThen, PieceOk, Meaning, Meanings, AllOk, PrintedAll, Utf8All;
      EachPrintedMeans();
      var _ := Take();
      OpeningQuote(old(Rest()), Rest());
      out, ps := TakePieces();
    }

    // Everything up to and with the closing quote.
    method TakePieces() returns (out: Option<string>, ghost ps: seq<Piece>)
      requires Valid()
      modifies this
      ensures Valid() && AllOk(ps)
      ensures out.Some? ==> old(Rest()) == PiecesThen(ps, "\"" + Rest()) && out.value == Meanings(ps)
      ensures forall ps0: seq<Piece>, rest0 :: AllOk(ps0) && old(Rest()) == PiecesThen(ps0, "\"" + rest0) ==> out.Some? && ps == ps0 && Rest() == rest0
    {
      hide LineAt, ColumnAt, PieceThen, PiecesThen, PieceOk, Meaning, Meanings, Follows, AllOk;
      ghost var start := Rest();
      EmptyString();
      FollowsStart(start);
      NoPieceAtQuote();
      var value := "";
      ps := [];
      while !AtEnd() && Peek() != '"'
        invariant Valid() && AllOk(ps) && value == Meanings(ps) && start == PiecesThen(ps, Rest()) && Follows(start, ps, Rest())
        decreases |text| - pos
      {
        ghost var now := Rest();
        var accepted, more;
        ghost var p;
        accepted, more, p := TakePiece();
        if !accepted {
          FollowsNothing(start, ps, now);
          return None, ps;
        }
        OnePieceMore(start, ps, now, p, Rest());
        value, ps := value + more, ps + [p];
      }
      ghost var now := Rest();
      if AtEnd() {
        FollowsNothing(start, ps, now);
        return None, ps;
      }
      var _ := Take();
      AtQuote(start, ps, now, Rest());
      out := Some(value);
    }

    // ---- Values ------------------------------------------------------------------------------------

    // A value at some depth of nesting. It is accepted exactly if it is well-formed and within the limits,
    // and is what its syntax tree means.
    method ParseValue(depth: nat) returns (accepted: bool, v: Value, ghost n: Node)
      requires Valid()
      modifies this
      ensures accepted ==> Valid() && pos > old(pos) && old(Rest()) == NodeThen(n, Rest()) && NodeOk(n, Rest())
      ensures accepted ==> NodeFits(n, depth) && Means(v, n)
      ensures forall n0: Node, rest0 :: NodeOk(n0, rest0) && old(Rest()) == NodeThen(n0, rest0) ==>
                (accepted <==> NodeFits(n0, depth)) && (accepted ==> n == n0 && Rest() == rest0)
      decreases |text| - pos, 2
    {
      hide *;
      Front();
      Brackets();
      NodeBeginnings();
      v, n := Null, NullNode;
      if depth > MAX_DEPTH {
        TooDeep(depth);
        return false, v, n;
      }
      if AtEnd() {
        return false, v, n;
      }
      var c := Peek();
      if c == '{' || c == '[' {
        accepted, v, n := ParseList(c == '{', depth);
      } else if c == '"' {
        accepted, v, n := ParseStringValue(depth);
      } else if c == '-' || IsDigit(c) {
        accepted, v, n := ParseNumberValue(depth);
      } else {
        accepted, v, n := ParseWord(depth);
      }
    }

    lemma Front()
      requires Valid()
      ensures AtEnd() <==> Rest() == ""
      ensures !AtEnd() <==> pos < |text|
      ensures pos <= |text| && |Rest()| == |text| - pos
      ensures !AtEnd() ==> Peek() == Rest()[0]
    {
    }

    method ParseStringValue(depth: nat) returns (accepted: bool, v: Value, ghost n: Node)
      requires Valid() && Rest() != "" && Rest()[0] == '"' && depth <= MAX_DEPTH
      modifies this
      ensures accepted ==> Valid() && pos > old(pos) && old(Rest()) == NodeThen(n, Rest()) && NodeOk(n, Rest())
      ensures accepted ==> NodeFits(n, depth) && Means(v, n)
      ensures forall n0: Node, rest0 :: n0.StringNode? && NodeOk(n0, rest0) && old(Rest()) == NodeThen(n0, rest0) ==>
                (accepted <==> NodeFits(n0, depth)) && (accepted ==> n == n0 && Rest() == rest0)
    {
      hide LineAt, ColumnAt, AllOk, StringThen, Meanings, PrintedAll, Utf8All;
      v, n := Null, NullNode;
      ghost var pieces;
      var s;
      s, pieces := ParseString();
      if s.None? {
        return false, v, n;
      }
      StringLonger(pieces, Rest());
      accepted, v, n := true, Value.String(s.value), StringNode(pieces);
    }

    method ParseNumberValue(depth: nat) returns (accepted: bool, v: Value, ghost n: Node)
      requires Valid() && Rest() != "" && (Rest()[0] == '-' || IsDigit(Rest()[0])) && depth <= MAX_DEPTH
      modifies this
      ensures accepted ==> Valid() && pos > old(pos) && old(Rest()) == NodeThen(n, Rest()) && NodeOk(n, Rest())
      ensures accepted ==> NodeFits(n, depth) && Means(v, n)
      ensures forall n0: Node, rest0 :: n0.NumberNode? && NodeOk(n0, rest0) && old(Rest()) == NodeThen(n0, rest0) ==>
                (accepted <==> NodeFits(n0, depth)) && (accepted ==> n == n0 && Rest() == rest0)
    {
      hide LineAt, ColumnAt, LiteralThen, LiteralOk, Ends, WithinLimits, Denotes, Canonical;
      v, n := Null, NullNode;
      ghost var l;
      var d;
      d, l := ParseNumber();
      if d.None? {
        return false, v, n;
      }
      LiteralLonger(l, Rest());
      accepted, v, n := true, Value.Number(d.value), NumberNode(l);
    }

    // true, false or null.
    method ParseWord(depth: nat) returns (accepted: bool, v: Value, ghost n: Node)
      requires Valid() && depth <= MAX_DEPTH
      modifies this
      ensures accepted ==> Valid() && pos > old(pos) && old(Rest()) == NodeThen(n, Rest()) && NodeOk(n, Rest())
      ensures accepted ==> NodeFits(n, depth) && Means(v, n)
      ensures forall n0: Node, rest0 :: (n0.NullNode? || n0.BoolNode?) && NodeOk(n0, rest0) && old(Rest()) == NodeThen(n0, rest0) ==>
                (accepted <==> NodeFits(n0, depth)) && (accepted ==> n == n0 && Rest() == rest0)
    {
      hide LineAt, ColumnAt, WordEnds, Parser.Rest;
      ThreeWords();
      v, n := Null, NullNode;
      accepted := TakeWord("true");
      if accepted {
        return true, Value.Bool(true), BoolNode(true);
      }
      accepted := TakeWord("false");
      if accepted {
        return true, Value.Bool(false), BoolNode(false);
      }
      accepted := TakeWord("null");
    }

    method TakeWord(word: string) returns (taken: bool)
      requires Valid() && word != ""
      modifies this
      ensures Valid() && (taken ==> pos > old(pos) && old(Rest()) == word + Rest() && WordEnds(Rest()))
      ensures !taken ==> Rest() == old(Rest()) && pos == old(pos)
      ensures forall rest0: string :: WordEnds(rest0) && old(Rest()) == word + rest0 ==> taken && Rest() == rest0
    {
      hide LineAt, ColumnAt;
      ghost var start := Rest();
      var after := pos + |word|;
      WordThere(text, pos, word);
      if after > |text| || text[pos..after] != word {
        return false;
      }
      if after < |text| && (('a' <= text[after] <= 'z') || ('A' <= text[after] <= 'Z') || IsDigit(text[after]) || text[after] == '_') {
        return false;
      }
      for i := 0 to |word|
        invariant Valid() && pos == old(pos) + i
      {
        var _ := Take();
      }
      taken := true;
    }

    // A whole document: a value, and nothing but gaps around it.
    method ParseDocument() returns (accepted: bool, v: Value, ghost doc: Document)
      requires Valid()
      modifies this
      ensures accepted ==> old(Rest()) == DocumentText(doc) && DocumentOk(doc) && NodeFits(doc.node, 0) && Means(v, doc.node)
      ensures forall doc0: Document :: DocumentOk(doc0) && old(Rest()) == DocumentText(doc0) ==>
                (accepted <==> NodeFits(doc0.node, 0)) && (accepted ==> doc == doc0)
    {
      hide *;
      DocumentReading();
      v, doc := Null, Document([], NullNode, []);
      ghost var before, node, after;
      accepted, before := SkipTrivia();
      if !accepted {
        return;
      }
      accepted, v, node := ParseValue(0);
      if !accepted {
        return;
      }
      accepted, after := SkipTrivia();
      if !accepted {
        return;
      }
      Front();
      accepted := pos == |text|;
      doc := Document(before, node, after);
    }

    // ---- Arrays and objects ------------------------------------------------------------------------

    // An array, or an object whose keys are all different.
    method ParseList(o: bool, depth: nat) returns (accepted: bool, v: Value, ghost n: Node)
      requires Valid() && Rest() != "" && Rest()[0] == Open(o) && depth <= MAX_DEPTH
      modifies this
      ensures accepted ==> Valid() && pos > old(pos) && old(Rest()) == NodeThen(n, Rest()) && NodeOk(n, Rest())
      ensures accepted ==> NodeFits(n, depth) && Means(v, n)
      ensures forall n0: Node, rest0 :: n0.ListNode? && n0.object_ == o && NodeOk(n0, rest0) && old(Rest()) == NodeThen(n0, rest0) ==>
                (accepted <==> NodeFits(n0, depth)) && (accepted ==> n == n0 && Rest() == rest0)
      decreases |text| - pos, 1
    {
      hide *;
      v, n := Null, NullNode;
      var _ := Take();
      ghost var start, gap := Rest(), [];
      Opened(o, old(Rest()), start);
      ListReadFacts(o, start);
      accepted, gap := SkipTrivia();
      if !accepted {
        return false, v, n;
      }
      Front();
      if !AtEnd() && Peek() == Close(o) {
        var _ := Take();
        EmptyList(start, o, gap, Rest(), depth);
        return true, if o then Value.Object([], []) else Value.Array([]), ListNode(o, gap, []);
      }
      var keys, values;
      ghost var items;
      accepted, keys, values, items := ParseItems(o, depth + 1, start, gap);
      ListMeans(o, keys, values, items, depth);
      if accepted {
        v, n := if o then Value.Object(keys, values) else Value.Array(values), ListNode(o, [], items);
      }
    }

    // One item: key and all.
    method ParseItem(o: bool, depth: nat, keys: seq<string>, ghost items: seq<Item>, ghost now: string, ghost before: Option<Gap>)
      returns (accepted: bool, key: string, value: Value, ghost it: Item)
      requires Valid() && Pending(now, before, Rest()) && (o ==> KeysMean(keys, items))
      modifies this
      ensures accepted ==> Valid() && pos > old(pos) && now == ItemThen(it, Rest()) && ItemOk(it, o, Rest())
      ensures accepted ==> Admitted(items, it, o, depth) && Means(value, it.node) && (o ==> HasKey(it) && key == Meanings(it.key.value.pieces))
      ensures accepted ==> ReadsItem(now, o, it, Rest())
      ensures !accepted ==> forall it0: Item, tail0: string :: ItemOk(it0, o, tail0) && Delimited(tail0, o) && now == ItemThen(it0, tail0) ==>
                              !Admitted(items, it0, o, depth)
      decreases |text| - pos, 3
    {
      hide *;
      key, value, it := "", Null, Item([], None, NullNode, []);
      ItemReading(o, now);
      AdmittedKeys(o, keys, items, depth);
      ghost var gap, k, node, after;
      accepted, gap := SkipMore(now, before);
      if !accepted {
        return;
      }
      Front();
      ghost var t0, maybe := Rest(), None;
      if o {
        accepted, key, k := ParseKey(keys);
        if !accepted {
          return;
        }
        maybe := Some(k);
      }
      WithoutKey(o, t0);
      ghost var t1 := Rest();
      accepted, value, node := ParseValue(depth);
      if !accepted {
        return;
      }
      ghost var t2 := Rest();
      accepted, after := SkipTrivia();
      if !accepted {
        return;
      }
      it := Item(gap, maybe, node, after);
      ItemRead(o, now, it, t0, t1, t2, Rest());
      OneItem(now, o, it, Rest());
    }

    // The gap before an item, unless it has been skipped already.
    method SkipMore(ghost now: string, ghost before: Option<Gap>) returns (accepted: bool, ghost gap: Gap)
      requires Valid() && Pending(now, before, Rest())
      modifies this
      ensures accepted ==> Valid() && pos >= old(pos) && now == GapThen(gap, Rest()) && GapOk(gap, Rest()) && !TriviumNext(Rest())
      ensures forall g0: seq<Trivium>, rest0 :: GapOk(g0, rest0) && !TriviumNext(rest0) && now == GapThen(g0, rest0) ==>
                accepted && gap == g0 && Rest() == rest0
    {
      hide GapThen, GapOk, TriviumNext, LineAt, ColumnAt;
      NoGap(Rest());
      accepted, gap := SkipTrivia();
      if before.Some? {
        gap := before.value;
      }
    }

    // A key, its colon, and the gaps around it. A key that occurred already is refused.
    method ParseKey(keys: seq<string>) returns (accepted: bool, key: string, ghost k: Key)
      requires Valid()
      modifies this
      ensures accepted ==> Valid() && pos > old(pos) && old(Rest()) == KeyThen(Some(k), Rest()) && KeyOk(Some(k), Rest()) && !TriviumNext(Rest())
      ensures accepted ==> AllOk(k.pieces) && key == Meanings(k.pieces) && key !in keys
      ensures forall k0: Key, rest0 :: KeyOk(Some(k0), rest0) && !TriviumNext(rest0) && old(Rest()) == KeyThen(Some(k0), rest0) ==>
                AllOk(k0.pieces) && (accepted <==> Meanings(k0.pieces) !in keys) && (accepted ==> k == k0 && Rest() == rest0)
    {
      hide *;
      Front();
      KeyReading();
      key, k := "", Key([], [], []);
      if AtEnd() || Peek() != '"' {
        return false, key, k;
      }
      ghost var pieces, mid, front;
      var s;
      s, pieces := ParseString();
      if s.None? {
        return false, key, k;
      }
      key := s.value;
      for i := 0 to |keys|
        invariant key !in keys[..i]
      {
        if keys[i] == key {
          return false, key, k;
        }
      }
      assert keys[..|keys|] == keys;
      ghost var t0 := Rest();
      StringLonger(pieces, t0);
      Front();
      accepted, mid := SkipTrivia();
      if !accepted {
        return;
      }
      Front();
      if AtEnd() || Peek() != ':' {
        return false, key, k;
      }
      ghost var t1 := Rest();
      var _ := Take();
      ghost var t2 := Rest();
      AfterColon(t1, t2);
      accepted, front := SkipTrivia();
      k := Key(pieces, mid, front);
    }

    // The items up to the closing bracket. The gap before the first one has been skipped already.
    method ParseItems(o: bool, depth: nat, ghost start: string, ghost gap: Gap)
      returns (accepted: bool, keys: seq<string>, values: seq<Value>, ghost items: seq<Item>)
      requires Valid() && start == GapThen(gap, Rest()) && GapOk(gap, Rest()) && !TriviumNext(Rest())
      requires forall g0: seq<Trivium>, rest0 :: GapOk(g0, rest0) && !TriviumNext(rest0) && start == GapThen(g0, rest0) ==> gap == g0 && Rest() == rest0
      modifies this
      ensures accepted ==> Valid() && pos > old(pos) && start == ItemsThen(items, o, Rest()) && ItemsOk(items, o, Rest())
      ensures accepted ==> ListFits(items, o, depth) && AllMean(values, items) && (o ==> KeysMean(keys, items))
      ensures forall items0: seq<Item>, rest0 :: ItemsOk(items0, o, rest0) && start == ItemsThen(items0, o, rest0) ==>
                (accepted <==> ListFits(items0, o, depth)) && (accepted ==> items == items0 && Rest() == rest0)
      decreases |text| - pos, 4
    {
      hide *;
      keys, values, items := [], [], [];
      ghost var now, before := start, Some(gap);
      NoItems(start, o, depth);
      Waiting(start, gap, Rest());
      InListStart(start, o);
      while true
        invariant Valid() && pos >= old(pos) && start == CommaThen(items, now) && CommaOk(items, o, now) && InList(start, o, items, now)
        invariant ListFits(items, o, depth) && AllMean(values, items) && (o ==> KeysMean(keys, items))
        invariant Pending(now, before, Rest())
        decreases |text| - pos
      {
        var key, value;
        ghost var it;
        Front();
        accepted, key, value, it := ParseItem(o, depth, keys, items, now, before);
        if !accepted {
          InListNever(start, o, items, now, depth);
          return false, keys, values, items;
        }
        Front();
        if AtEnd() || (Peek() != ',' && Peek() != Close(o)) {
          NoDelimiter(now, o, it, Rest());
          InListNever(start, o, items, now, depth);
          return false, keys, values, items;
        }
        ghost var next := Rest();
        var c := Take();
        ItemAdded(start, o, items, keys, values, now, it, key, value, next, depth);
        assert next[1..] == Rest();
        keys, values, items := keys + [key], values + [value], items + [it];
        if c != ',' {
          return true, keys, values, items;
        }
        now, before := Rest(), None;
        NotWaiting(now);
      }
    }
  }

  lemma OnePieceMore(start: string, ps: seq<Piece>, now: string, p: Piece, next: string)
    requires Follows(start, ps, now) && now != "" && now[0] != '"' && start == PiecesThen(ps, now) && AllOk(ps)
    requires PieceOk(p) && now == PieceThen(p, next) && forall p0: Piece, rest0: string :: PieceOk(p0) && now == PieceThen(p0, rest0) ==> p == p0 && next == rest0
    ensures Follows(start, ps + [p], next) && start == PiecesThen(ps + [p], next) && AllOk(ps + [p]) && Meanings(ps + [p]) == Meanings(ps) + Meaning(p)
    ensures |next| < |now|
  {
    hide Follows, Meanings, Meaning, PieceOk, PiecesThen;
    FollowsStep(start, ps, now, p, next);
    PiecesSnoc(ps, p, next);
    MeaningsSnoc(ps, p);
  }

  predicate AllScalar(cps: seq<nat>) {
    forall k | 0 <= k < |cps| :: Scalar(cps[k])
  }

  lemma EachPrintedMeans()
    ensures forall cps: seq<nat>, ascii: bool :: AllScalar(cps) ==> AllOk(PrintedAll(cps, ascii)) && Meanings(PrintedAll(cps, ascii)) == Utf8All(cps)
  {
    forall cps: seq<nat>, ascii: bool | AllScalar(cps)
      ensures AllOk(PrintedAll(cps, ascii)) && Meanings(PrintedAll(cps, ascii)) == Utf8All(cps)
    {
      PrintedAllMeans(cps, ascii);
    }
  }

  lemma EmptyString()
    ensures AllOk([]) && Meanings([]) == "" && forall rest :: PiecesThen([], rest) == rest
  {
  }

  lemma OpeningQuote(start: string, rest: string)
    requires start == "\"" + rest
    ensures forall ps0: seq<Piece>, rest0 :: start == StringThen(ps0, rest0) ==> rest == PiecesThen(ps0, "\"" + rest0)
    ensures forall ps0: seq<Piece>, rest0 :: rest == PiecesThen(ps0, "\"" + rest0) ==> start == StringThen(ps0, rest0)
  {
    hide PiecesThen;
    forall ps0: seq<Piece>, rest0 | start == StringThen(ps0, rest0)
      ensures rest == PiecesThen(ps0, "\"" + rest0)
    {
      assert start[1..] == rest && start[1..] == PiecesThen(ps0, "\"" + rest0);
    }
  }

  lemma NoPieceAtQuote()
    ensures forall p0: Piece, rest0 :: PieceOk(p0) ==> PieceThen(p0, rest0) != "" && PieceThen(p0, rest0)[0] != '"'
  {
  }

  lemma AtQuote(start: string, ps: seq<Piece>, now: string, rest: string)
    requires Follows(start, ps, now) && now == "\"" + rest
    ensures forall ps0: seq<Piece>, rest0 :: AllOk(ps0) && start == PiecesThen(ps0, "\"" + rest0) ==> ps == ps0 && rest == rest0
  {
    forall ps0: seq<Piece>, rest0 | AllOk(ps0) && start == PiecesThen(ps0, "\"" + rest0)
      ensures ps == ps0 && rest == rest0
    {
      FollowsEnd(start, ps, now, ps0, rest0);
      assert now[1..] == rest && now[1..] == rest0;
    }
  }

  // Behind a character that is no backslash stands the rest; a backslash begins an escape.
  lemma OrRaw(start: string, c: char, rest: string)
    requires start == [c] + rest
    ensures forall p0: Piece, rest0 :: PieceOk(p0) && start == PieceThen(p0, rest0) ==>
              if c == '\\' then "\\" + rest == PieceThen(p0, rest0) else c as int >= 0x20 && p0 == Raw(c) && rest == rest0
  {
    hide HexValue, Code;
    forall p0: Piece, rest0 | PieceOk(p0) && start == PieceThen(p0, rest0)
      ensures if c == '\\' then "\\" + rest == PieceThen(p0, rest0) else c as int >= 0x20 && p0 == Raw(c) && rest == rest0
    {
      assert start[0] == PieceThen(p0, rest0)[0] == c && start[1..] == rest;
      if p0.Raw? {
        assert PieceThen(p0, rest0)[1..] == rest0;
      }
    }
  }

  // The text of a unicode escape behind its `\u`.
  function UnicodeThen(p: Piece, rest: string): string
    requires p.Escape? || p.Pair?
  {
    match p
    case Escape(hex) => hex + rest
    case Pair(high, low) => high + ("\\" + ("u" + (low + rest)))
  }

  lemma ShortMeans(e: char)
    requires PieceOk(Short(e))
    ensures Meaning(Short(e)) == [Unescaped(e)]
  {
  }

  lemma SecondHalf(tail: string)
    ensures forall more: string :: tail == "\\" + ("u" + more) ==> |tail| >= 2 && tail[0] == '\\' && tail[1] == 'u' && tail[2..] == more
  {
  }

  lemma CodeIsSmall(hex: string)
    requires Code(hex)
    ensures HexValue(hex) < 0x1_0000
  {
    FourDigits(hex);
  }

  lemma BehindNothing()
    ensures forall p0: Piece, rest0 :: PieceOk(p0) ==> "\\" + "" != PieceThen(p0, rest0)
  {
    forall p0: Piece, rest0 | PieceOk(p0)
      ensures "\\" + "" != PieceThen(p0, rest0)
    {
      if p0.Raw? {
        assert PieceThen(p0, rest0)[0] == p0.c;
      } else {
        assert |PieceThen(p0, rest0)| >= 2;
      }
    }
  }

  // The character behind a backslash decides which kind of piece it is.
  lemma Behind(start: string, e: char, rest: string)
    requires start == [e] + rest
    ensures forall p0: Piece, rest0 :: PieceOk(p0) && "\\" + start == PieceThen(p0, rest0) ==>
              if e == 'u' then (p0.Escape? || p0.Pair?) && rest == UnicodeThen(p0, rest0) else p0 == Short(e) && rest == rest0
  {
    hide HexValue, Code;
    forall p0: Piece, rest0 | PieceOk(p0) && "\\" + start == PieceThen(p0, rest0)
      ensures if e == 'u' then (p0.Escape? || p0.Pair?) && rest == UnicodeThen(p0, rest0) else p0 == Short(e) && rest == rest0
    {
      var t := PieceThen(p0, rest0);
      assert t[0] == '\\' && t[1] == e && t[2..] == rest;
      match p0
      case Raw(c) =>
      case Short(s) => assert t == "\\" + ([s] + rest0) && t[2..] == rest0;
      case Escape(hex) => assert t[1] == 'u' && t[2..] == hex + rest0;
      case Pair(high, low) => assert t[1] == 'u' && t[2..] == UnicodeThen(p0, rest0);
    }
  }

  lemma NotFour(start: string, hex: string, rest: string)
    requires AllHex(hex) && |hex| < 4 && start == hex + rest && (rest == "" || HexDigit(rest[0]) < 0)
    ensures forall h0: string, rest0 :: Code(h0) ==> start != h0 + rest0
  {
    forall h0: string, rest0 | Code(h0)
      ensures start != h0 + rest0
    {
      if start == h0 + rest0 {
        Overlap(hex, rest, h0, rest0);
        assert false;
      }
    }
  }

  predicate DigitsFit(l: Literal)
    requires LiteralOk(l)
  {
    Significant(l.whole + l.fraction) <= MAX_DIGITS && (l.exponent.Some? ==> NatOf(l.exponent.value.digits) <= MAX_EXPONENT)
  }

  lemma MagnitudeLimits()
    ensures forall l :: LiteralOk(l) && WithinLimits(l) ==> DigitsFit(l)
  {
  }

  lemma WholeLimits()
    ensures forall l :: LiteralOk(l) && Significant(l.whole + l.fraction) <= MAX_DIGITS ==> Significant(l.whole) <= MAX_DIGITS
  {
    forall l | LiteralOk(l)
      ensures Significant(l.whole) <= Significant(l.whole + l.fraction)
    {
      OnlyGrows(l.whole, l.fraction);
    }
  }

  lemma EighteenDigits(s: string)
    requires AllDigits(s) && Significant(s) <= MAX_DIGITS
    ensures NatOf(s) <= MAX_MANTISSA
  {
    LeadingZerosDoNotCount(s);
    var n := Significant(s);
    Pow10Add(n, 18 - n);
    MulMono(1, Pow10(18 - n), Pow10(n));
    assert Pow10(4) == 10_000 && Pow10(5) == 100_000;
    Pow10Add(4, 5);
    Pow10Add(9, 9);
  }

  // No superfluous zeros: a negative scale is folded into the mantissa, trailing zeros into the scale.
  method Normalise(mantissa: nat, scale: int) returns (d: Option<Decimal>)
    requires mantissa <= MAX_MANTISSA
    ensures d.None? <==> scale < 0 && Shifted(mantissa, -scale) > MAX_MANTISSA
    ensures d.Some? ==> Canonical(d.value) && 0 <= d.value.mantissa <= MAX_MANTISSA
    ensures d.Some? && scale < 0 ==> d.value == Decimal(Shifted(mantissa, -scale), 0)
    ensures d.Some? && scale >= 0 ==> d.value.scale <= scale && Shifted(d.value.mantissa, scale - d.value.scale) == mantissa
  {
    hide Shifted;
    var m: nat, k: int := mantissa, scale;
    while k < 0
      invariant scale < 0 ==> scale <= k <= 0 && Shifted(m, -k) == Shifted(mantissa, -scale)
      invariant scale >= 0 ==> k == scale && m == mantissa
      invariant m <= MAX_MANTISSA
    {
      ShiftOne(m, -k);
      if m > MAX_MANTISSA / 10 {
        ShiftGrows(m * 10, -k - 1);
        return None;
      }
      m, k := m * 10, k + 1;
    }
    NoShift(m);
    ghost var m0, k0 := m, k;
    while k > 0 && m % 10 == 0 && m != 0
      invariant 0 <= k <= k0 && m <= m0 && Shifted(m, k0 - k) == m0
    {
      ShiftOne(m / 10, k0 - k + 1);
      m, k := m / 10, k - 1;
    }
    NoShift(m);
    if m == 0 {
      ZeroShifted(k0 - k);
      ZeroShifted(k0);
      k := 0;
    }
    d := Some(Decimal(m, k));
  }

  lemma NoShift(m: nat)
    ensures Shifted(m, 0) == m
  {
  }

  lemma ShiftOne(m: nat, n: nat)
    requires n > 0
    ensures Shifted(m, n) == Shifted(m * 10, n - 1)
  {
    Assoc(m, 10, Pow10(n - 1));
  }

  lemma ShiftGrows(m: nat, n: nat)
    ensures Shifted(m, n) >= m
  {
    MulMono(1, Pow10(n), m);
  }

  lemma ZeroShifted(n: nat)
    ensures Shifted(0, n) == 0
  {
  }

  // The text behind the sign.
  lemma Signed(start: string, negative: bool, rest: string)
    requires start == (if negative then "-" else "") + rest && (!negative ==> start == "" || start[0] != '-')
    ensures forall l0, rest0 :: LiteralOk(l0) && start == LiteralThen(l0, rest0) ==>
              l0.negative == negative && rest == MagnitudeThen(l0, rest0) && DigitNext(rest)
  {
    forall l0, rest0 | LiteralOk(l0) && start == LiteralThen(l0, rest0)
      ensures l0.negative == negative && rest == MagnitudeThen(l0, rest0) && DigitNext(rest)
    {
      var back := MagnitudeThen(l0, rest0);
      assert back[0] == l0.whole[0];
      assert start[0] == if l0.negative then '-' else back[0];
      if negative {
        assert start[1..] == rest && start[1..] == back;
      } else {
        assert start == rest && start == back;
      }
    }
  }

  // Where a literal ends, so do its parts.
  lemma FrontEnds()
    ensures forall l0, rest0 :: LiteralOk(l0) && Ends(l0, rest0) ==>
              var back := ExponentThen(l0.exponent, rest0);
              !DigitNext(back) && (l0.fraction == "" ==> !PointNext(back)) && !DigitNext(FractionThen(l0.fraction, back))
  {
  }

  lemma EndsThere(fraction: string, x: Option<Exponent>, back: string, rest: string)
    requires back == ExponentThen(x, rest) && !DigitNext(rest) && (x.None? ==> !MarkNext(rest)) && (fraction == "" ==> !PointNext(back))
    ensures forall l: Literal :: l.fraction == fraction && l.exponent == x ==> Ends(l, rest)
  {
  }

  lemma ZeroIsLiteral()
    ensures LiteralOk(Literal(false, "0", "", None))
  {
  }

  lemma ZeroIsWhole()
    ensures WholeOk("0")
  {
  }

  // The digits and the exponent, put together, denote what the literal does.
  lemma NormalDenotes(l: Literal, mantissa: nat, n: Option<Decimal>)
    requires LiteralOk(l) && DigitsFit(l) && mantissa == NatOf(l.whole + l.fraction)
    requires var scale := |l.fraction| - ExponentOf(l.exponent);
             && (n.None? <==> scale < 0 && Shifted(mantissa, -scale) > MAX_MANTISSA)
             && (n.Some? && scale < 0 ==> n.value == Decimal(Shifted(mantissa, -scale), 0))
             && (n.Some? && scale >= 0 ==> 0 <= n.value.mantissa && n.value.scale <= scale && Shifted(n.value.mantissa, scale - n.value.scale) == mantissa)
    ensures n.Some? <==> WithinLimits(l)
    ensures n.Some? ==> Denotes(WithSign(l.negative, n.value), l)
    ensures n.Some? && Canonical(n.value) && n.value.mantissa <= MAX_MANTISSA ==> Canonical(WithSign(l.negative, n.value)) && Fits(WithSign(l.negative, n.value).mantissa)
  {
    hide NatOf, Significant, Pow10;
    assert |l.fraction| - ExponentOf(l.exponent) == Down(l) - Up(l);
    if n.Some? {
      Balanced(mantissa, n.value, Down(l), Up(l));
      Negated(n.value.mantissa, mantissa, Pow10(Down(l)), Pow10(Up(l)), Pow10(n.value.scale));
    }
  }

  // m * 10^down == mantissa * 10^up * 10^s
  lemma Balanced(mantissa: nat, d: Decimal, down: nat, up: nat)
    requires var scale := down - up;
             && (scale < 0 ==> d == Decimal(Shifted(mantissa, -scale), 0))
             && (scale >= 0 ==> 0 <= d.mantissa && d.scale <= scale && Shifted(d.mantissa, scale - d.scale) == mantissa)
    ensures d.mantissa * Pow10(down) == mantissa * Pow10(up) * Pow10(d.scale)
  {
    hide Pow10, Shifted;
    var m, s, scale := d.mantissa, d.scale, down - up;
    if scale < 0 {
      Grown(mantissa, -scale, down);
    } else {
      Folded(m, scale - s, s, up);
    }
  }

  lemma Folded(m: nat, k: nat, s: nat, up: nat)
    ensures m * Pow10(k + s + up) == Shifted(m, k) * Pow10(up) * Pow10(s)
  {
    hide Pow10;
    Pow10Add(k, s);
    Pow10Add(k + s, up);
    Regrouped(m, Pow10(k), Pow10(s), Pow10(up));
  }

  lemma Grown(m: nat, k: nat, down: nat)
    ensures Shifted(m, k) * Pow10(down) == m * Pow10(k + down) * Pow10(0)
  {
    Pow10Add(k, down);
    assert Pow10(0) == 1;
    Assoc(m, Pow10(k), Pow10(down));
  }

  lemma Regrouped(m: int, a: int, b: int, c: int)
    ensures m * ((a * b) * c) == ((m * a) * c) * b
  {
    assert (a * b) * c == (a * c) * b;
    Assoc(m, a * c, b);
    Assoc(m, a, c);
  }

  lemma Negated(m: int, n: int, p: int, q: int, r: int)
    requires m * p == n * q * r
    ensures (-m) * p == (-n) * q * r
  {
    assert (-n) * q == -(n * q);
  }

  lemma NoGap(start: string)
    ensures start == GapThen([], start) && GapOk([], start)
  {
  }

  lemma FirstClose(tail: string, body: string, rest: string)
    requires tail == body + ("*/" + rest) && forall k | 0 <= k < |body| :: !Closes(tail[k..])
    ensures ClosesFirst(body)
  {
    forall k | 0 <= k < |body|
      ensures !Closes((body + "*/")[k..])
    {
      var s := (body + "*/")[k..];
      assert s[0] == tail[k..][0] && s[1] == tail[k..][1];
    }
  }

  lemma NeverClosed(now: string, tail: string)
    requires now == "/*" + tail && forall k | 0 <= k < |tail| :: !Closes(tail[k..])
    ensures forall t0: Trivium, rest0: string :: TriviumOk(t0, rest0) ==> now != TriviumThen(t0, rest0)
  {
    forall t0: Trivium, rest0: string | TriviumOk(t0, rest0)
      ensures now != TriviumThen(t0, rest0)
    {
      if now == TriviumThen(t0, rest0) {
        BlockCloses(now, tail, t0, rest0);
        assert false;
      }
    }
  }

  lemma Zero(s: string)
    requires AllDigits(s)
    ensures NatOf(s) == 0 <==> Significant(s) == 0
  {
    LeadingZerosDoNotCount(s);
  }

  lemma {:induction false} OnlyGrows(s: string, more: string)
    requires AllDigits(s) && AllDigits(more)
    ensures Significant(s + more) >= Significant(s)
  {
    if more == "" {
      assert s + more == s;
    } else {
      OnlyGrows(s, more[..|more| - 1]);
      assert (s + more)[..|s + more| - 1] == s + more[..|more| - 1];
      Zero(s + more[..|more| - 1]);
    }
  }

  // Digits are taken as far as they go.
  lemma Munched(d0: string, rest0: string, taken: string, rest: string)
    requires AllDigits(d0) && !DigitNext(rest0) && AllDigits(taken) && d0 + rest0 == taken + rest
    ensures |taken| <= |d0| && taken == d0[..|taken|]
    ensures !DigitNext(rest) ==> taken == d0 && rest == rest0
  {
    if |taken| > |d0| {
      Overlap(d0, rest0, taken, rest);
      assert false;
    }
    Overlap(taken, rest, d0, rest0);
  }

  lemma OneDigitMore(seen: string, taken: string, d: char, start: string, rest: string)
    requires AllDigits(seen) && AllDigits(taken) && IsDigit(d) && start == taken + ([d] + rest)
    ensures start == (taken + [d]) + rest && AllDigits(taken + [d])
    ensures NatOf(seen + (taken + [d])) == NatOf(seen + taken) * 10 + DigitOf(d)
    ensures Significant(seen + (taken + [d])) == if NatOf(seen + taken) == 0 && d == '0' then Significant(seen + taken) else Significant(seen + taken) + 1
  {
    hide NatOf, Significant;
    assert seen + (taken + [d]) == (seen + taken) + [d];
    DigitStep(seen + taken, d);
  }

  lemma NoneSeen(taken: string, d: char)
    ensures "" + taken == taken && "" + (taken + [d]) == taken + [d]
  {
  }

  lemma DigitStep(s: string, d: char)
    requires AllDigits(s) && IsDigit(d)
    ensures AllDigits(s + [d]) && NatOf(s + [d]) == NatOf(s) * 10 + DigitOf(d)
    ensures Significant(s + [d]) == if NatOf(s) == 0 && d == '0' then Significant(s) else Significant(s) + 1
  {
    assert (s + [d])[..|s + [d]| - 1] == s;
    Zero(s);
  }

  // More digits than fit: no literal that begins so is within the limits.
  lemma TooMany(seen: string, longer: string, start: string, rest: string)
    requires AllDigits(seen) && AllDigits(longer) && start == longer + rest && Significant(seen + longer) > MAX_DIGITS
    ensures forall d0, rest0 :: AllDigits(d0) && !DigitNext(rest0) && start == d0 + rest0 ==> Significant(seen + d0) > MAX_DIGITS
  {
    forall d0, rest0 | AllDigits(d0) && !DigitNext(rest0) && start == d0 + rest0
      ensures Significant(seen + d0) > MAX_DIGITS
    {
      Munched(d0, rest0, longer, rest);
      OnlyGrows(seen + longer, d0[|longer|..]);
      assert seen + longer + d0[|longer|..] == seen + d0;
    }
  }

  lemma AllMunched(start: string, taken: string, rest: string)
    requires AllDigits(taken) && start == taken + rest && !DigitNext(rest)
    ensures forall d0, rest0 :: AllDigits(d0) && !DigitNext(rest0) && start == d0 + rest0 ==> taken == d0 && rest == rest0
  {
    forall d0, rest0 | AllDigits(d0) && !DigitNext(rest0) && start == d0 + rest0
      ensures taken == d0 && rest == rest0
    {
      Munched(d0, rest0, taken, rest);
    }
  }

  lemma NoDigits()
    ensures NatOf("") == 0 && Significant("") == 0 && NatOf("0") == 0 && Significant("0") == 0
  {
    assert "0"[..0] == "";
  }

  // A number that begins with 0 has no other digit before the point.
  lemma AloneZero(start: string, rest: string)
    requires start == "0" + rest
    ensures forall w0, rest0 :: WholeOk(w0) && start == w0 + rest0 ==> w0 == "0" && rest0 == rest
  {
    forall w0, rest0 | WholeOk(w0) && start == w0 + rest0
      ensures w0 == "0" && rest0 == rest
    {
      assert start[0] == '0' && start[0] == w0[0];
      Overlap("0", rest, w0, rest0);
    }
  }

  lemma {:induction false} ValueOnlyGrows(s: string, more: string)
    requires AllDigits(s) && AllDigits(more)
    ensures NatOf(s + more) >= NatOf(s)
  {
    if more == "" {
      assert s + more == s;
    } else {
      ValueOnlyGrows(s, more[..|more| - 1]);
      assert (s + more)[..|s + more| - 1] == s + more[..|more| - 1];
    }
  }

  lemma TooLarge(longer: string, start: string, rest: string)
    requires AllDigits(longer) && start == longer + rest && NatOf(longer) > MAX_EXPONENT
    ensures forall d0, rest0 :: AllDigits(d0) && !DigitNext(rest0) && start == d0 + rest0 ==> NatOf(d0) > MAX_EXPONENT
  {
    forall d0, rest0 | AllDigits(d0) && !DigitNext(rest0) && start == d0 + rest0
      ensures NatOf(d0) > MAX_EXPONENT
    {
      Munched(d0, rest0, longer, rest);
      ValueOnlyGrows(longer, d0[|longer|..]);
      assert longer + d0[|longer|..] == d0;
    }
  }

  // The text of an exponent has one reading.
  lemma ExponentParts(start: string, mark: char, sign: string, rest: string)
    requires start == [mark] + (sign + rest)
    requires sign == "+" || sign == "-" || (sign == "" && (rest == "" || (rest[0] != '+' && rest[0] != '-')))
    ensures forall x0: Option<Exponent>, rest0 :: x0.Some? && ExponentOk(x0.value) && start == ExponentThen(x0, rest0) ==>
              x0.value.mark == mark && x0.value.sign == sign && x0.value.digits + rest0 == rest
  {
    forall x0: Option<Exponent>, rest0 | x0.Some? && ExponentOk(x0.value) && start == ExponentThen(x0, rest0)
      ensures x0.value.mark == mark && x0.value.sign == sign && x0.value.digits + rest0 == rest
    {
      var x := x0.value;
      var digits := x.digits + rest0;
      assert start[0] == x.mark == mark && start[1..] == x.sign + digits == sign + rest;
      assert digits[0] == x.digits[0];
      SignParts(x.sign, digits, sign, rest);
    }
  }

  lemma SignParts(s: string, more: string, t: string, rest: string)
    requires s + more == t + rest && more != "" && IsDigit(more[0]) && (s == "" || s == "+" || s == "-")
    requires t == "+" || t == "-" || (t == "" && (rest == "" || (rest[0] != '+' && rest[0] != '-')))
    ensures s == t && more == rest
  {
    var whole := s + more;
    assert whole[0] == if s == "" then more[0] else s[0];
    assert whole[0] == if t == "" then rest[0] else t[0];
    assert |s| == |t|;
    Overlap(s, more, t, rest);
  }

  // ---- Facts about the grammar, as the scanner needs them ------------------------------------------

  // The gap before an item has been skipped already, or comes next.
  ghost predicate Pending(now: string, before: Option<Gap>, rest: string) {
    match before
    case None => now == rest
    case Some(gap) =>
      now == GapThen(gap, rest) && GapOk(gap, rest) && !TriviumNext(rest) &&
      forall g0: seq<Trivium>, rest0: string :: GapOk(g0, rest0) && !TriviumNext(rest0) && now == GapThen(g0, rest0) ==> gap == g0 && rest == rest0
  }

  lemma Waiting(now: string, gap: Gap, rest: string)
    requires now == GapThen(gap, rest) && GapOk(gap, rest) && !TriviumNext(rest)
    requires forall g0: seq<Trivium>, rest0: string :: GapOk(g0, rest0) && !TriviumNext(rest0) && now == GapThen(g0, rest0) ==> gap == g0 && rest == rest0
    ensures Pending(now, Some(gap), rest)
  {
  }

  lemma NotWaiting(rest: string)
    ensures Pending(rest, None, rest)
  {
  }

  lemma Brackets()
    ensures Open(true) == '{' && Open(false) == '[' && Close(true) == '}' && Close(false) == ']'
  {
  }

  lemma NodeBeginnings()
    ensures forall n0: Node, rest0 :: NodeOk(n0, rest0) ==>
              var t := NodeThen(n0, rest0);
              t != "" && (t[0] == '"' <==> n0.StringNode?) && (t[0] == '{' <==> n0.ListNode? && n0.object_)
              && (t[0] == '[' <==> n0.ListNode? && !n0.object_) && (t[0] == '-' || IsDigit(t[0]) <==> n0.NumberNode?)
  {
    forall n0: Node, rest0 | NodeOk(n0, rest0)
      ensures var t := NodeThen(n0, rest0);
              t != "" && (t[0] == '"' <==> n0.StringNode?) && (t[0] == '{' <==> n0.ListNode? && n0.object_)
              && (t[0] == '[' <==> n0.ListNode? && !n0.object_) && (t[0] == '-' || IsDigit(t[0]) <==> n0.NumberNode?)
    {
      NodeBegins(n0, rest0);
    }
  }

  lemma TooDeep(depth: nat)
    requires depth > MAX_DEPTH
    ensures forall n :: !NodeFits(n, depth)
  {
  }

  lemma ThreeWords()
    ensures forall n0: Node, rest0 :: (n0.NullNode? || n0.BoolNode?) && NodeOk(n0, rest0) ==>
              WordEnds(rest0) && NodeThen(n0, rest0) == (if n0.NullNode? then "null" else if n0.b then "true" else "false") + rest0
    ensures forall a, b: string :: "true" + a != "false" + b && "true" + a != "null" + b && "false" + a != "null" + b
  {
    forall a, b: string
      ensures "true" + a != "false" + b && "true" + a != "null" + b && "false" + a != "null" + b
    {
      assert ("true" + a)[0] == 't' && ("false" + a)[0] == 'f' && ("false" + b)[0] == 'f' && ("null" + b)[0] == 'n';
    }
  }

  lemma WordThere(text: string, pos: nat, word: string)
    requires pos <= |text|
    ensures forall rest0: string :: text[pos..] == word + rest0 ==> pos + |word| <= |text| && text[pos..pos + |word|] == word && text[pos + |word|..] == rest0
    ensures pos + |word| <= |text| && text[pos..pos + |word|] == word ==> text[pos..] == word + text[pos + |word|..]
  {
    forall rest0: string | text[pos..] == word + rest0
      ensures pos + |word| <= |text| && text[pos..pos + |word|] == word && text[pos + |word|..] == rest0
    {
      assert text[pos..][..|word|] == word && text[pos..][|word|..] == rest0;
      assert text[pos..][|word|..] == text[pos + |word|..] && text[pos..][..|word|] == text[pos..pos + |word|];
    }
  }

  lemma {:induction false} PiecesLonger(pieces: seq<Piece>, rest: string)
    ensures |PiecesThen(pieces, rest)| >= |rest|
  {
    if pieces != [] {
      PiecesLonger(pieces[1..], rest);
    }
  }

  lemma StringLonger(pieces: seq<Piece>, rest: string)
    ensures |StringThen(pieces, rest)| > |rest|
  {
    PiecesLonger(pieces, "\"" + rest);
  }

  lemma LiteralLonger(l: Literal, rest: string)
    requires LiteralOk(l)
    ensures |LiteralThen(l, rest)| > |rest|
  {
  }

  lemma SameTail()
    ensures forall c, d: char, a, b: string :: [c] + a == [d] + b ==> c == d && a == b
  {
    forall c, d: char, a, b: string | [c] + a == [d] + b
      ensures c == d && a == b
    {
      assert ([c] + a)[0] == c && ([c] + a)[1..] == a && ([d] + b)[0] == d && ([d] + b)[1..] == b;
    }
  }

  // Behind the colon of a member.
  lemma AfterColon(t1: string, t2: string)
    requires t1 == ":" + t2
    ensures forall rest: string :: t1 == ":" + rest ==> t2 == rest
  {
    SameTail();
  }

  lemma KeyReading()
    ensures forall k0: Key, rest0 :: KeyOk(Some(k0), rest0) ==>
              AllOk(k0.pieces) && KeyThen(Some(k0), rest0) == StringThen(k0.pieces, GapThen(k0.mid, ":" + GapThen(k0.front, rest0)))
              && KeyThen(Some(k0), rest0) != "" && KeyThen(Some(k0), rest0)[0] == '"'
              && GapOk(k0.mid, ":" + GapThen(k0.front, rest0)) && !TriviumNext(":" + GapThen(k0.front, rest0)) && GapOk(k0.front, rest0)
    ensures forall k0: Key, rest0 :: AllOk(k0.pieces) && GapOk(k0.mid, ":" + GapThen(k0.front, rest0)) && GapOk(k0.front, rest0) ==>
              KeyOk(Some(k0), rest0) && KeyThen(Some(k0), rest0) == StringThen(k0.pieces, GapThen(k0.mid, ":" + GapThen(k0.front, rest0)))
    ensures forall rest: string :: (":" + rest) != "" && (":" + rest)[0] == ':'
  {
    hide PiecesThen, GapThen, GapOk, AllOk;
  }

  lemma ItemReading(o: bool, now: string)
    ensures forall it0: Item, tail0: string :: ItemOk(it0, o, tail0) && Delimited(tail0, o) && now == ItemThen(it0, tail0) ==>
              var t2 := GapThen(it0.after, tail0);
              var t1 := NodeThen(it0.node, t2);
              var t0 := KeyThen(it0.key, t1);
              && it0.key.Some? == o && GapOk(it0.before, t0) && !TriviumNext(t0) && now == GapThen(it0.before, t0)
              && !TriviumNext(t1) && NodeOk(it0.node, t2) && GapOk(it0.after, tail0) && !TriviumNext(tail0)
              && (if o then HasKey(it0) && KeyOk(Some(it0.key.value), t1) && t0 == KeyThen(Some(it0.key.value), t1) else it0.key == None && t0 == t1)
  {
    hide GapThen, GapOk, NodeThen, NodeOk;
    forall it0: Item, tail0: string | ItemOk(it0, o, tail0) && Delimited(tail0, o)
      ensures !TriviumNext(tail0)
    {
    }
    forall it0: Item, tail0: string | ItemOk(it0, o, tail0)
      ensures var t1 := NodeThen(it0.node, GapThen(it0.after, tail0)); !TriviumNext(KeyThen(it0.key, t1)) && !TriviumNext(t1)
    {
      ItemBegins(it0, o, tail0);
    }
  }

  lemma WithoutKey(o: bool, t: string)
    ensures KeyThen(None, t) == t && KeyOk(None, t)
  {
  }

  lemma AdmittedKeys(o: bool, keys: seq<string>, items: seq<Item>, depth: nat)
    requires o ==> KeysMean(keys, items)
    ensures forall it: Item :: (o ==> HasKey(it)) ==>
              (Admitted(items, it, o, depth) <==> NodeFits(it.node, depth) && (o ==> Meanings(it.key.value.pieces) !in keys))
    ensures forall it: Item :: HasKey(it) <==> it.key.Some? && AllOk(it.key.value.pieces)
  {
    hide NodeFits, AllOk, Meanings;
    forall it: Item | o && HasKey(it)
      ensures (forall k | 0 <= k < |items| :: !SameKey(items[k], it)) <==> Meanings(it.key.value.pieces) !in keys
    {
      if Meanings(it.key.value.pieces) in keys {
        var k :| 0 <= k < |keys| && keys[k] == Meanings(it.key.value.pieces);
        assert SameKey(items[k], it);
      }
    }
  }

  lemma ItemRead(o: bool, now: string, it: Item, t0: string, t1: string, t2: string, rest: string)
    requires it.key.Some? == o && now == GapThen(it.before, t0) && GapOk(it.before, t0) && t0 == KeyThen(it.key, t1) && KeyOk(it.key, t1)
    requires t1 == NodeThen(it.node, t2) && NodeOk(it.node, t2) && t2 == GapThen(it.after, rest) && GapOk(it.after, rest)
    ensures now == ItemThen(it, rest) && ItemOk(it, o, rest)
  {
    hide GapThen, GapOk, NodeThen, NodeOk, KeyThen, KeyOk;
  }

  // Where a list has its first gap, and what is behind it.
  function FirstGap(n: Node): Gap
    requires n.ListNode?
  {
    if n.items == [] then n.gap else n.items[0].before
  }

  function BehindGap(n: Node, rest: string): string
    requires n.ListNode?
  {
    if n.items == [] then [Close(n.object_)] + rest
    else
      var it := n.items[0];
      KeyThen(it.key, NodeThen(it.node, GapThen(it.after, Tail(n.items, 0, n.object_, rest))))
  }

  ghost predicate ListRead(o: bool, start: string, n0: Node, rest0: string)
    requires n0.ListNode?
  {
    && GapOk(FirstGap(n0), BehindGap(n0, rest0)) && !TriviumNext(BehindGap(n0, rest0)) && start == GapThen(FirstGap(n0), BehindGap(n0, rest0))
    && (n0.items == [] <==> BehindGap(n0, rest0) != "" && BehindGap(n0, rest0)[0] == Close(o))
    && (n0.items == [] ==> BehindGap(n0, rest0) == [Close(o)] + rest0 && n0 == ListNode(o, FirstGap(n0), []))
    && (n0.items != [] ==> n0 == ListNode(o, [], n0.items) && ItemsOk(n0.items, o, rest0) && start == ItemsThen(n0.items, o, rest0))
  }

  lemma ListReadFacts(o: bool, start: string)
    ensures forall n0: Node, rest0: string :: n0.ListNode? && ListRead(o, start, n0, rest0) ==>
              && GapOk(FirstGap(n0), BehindGap(n0, rest0)) && !TriviumNext(BehindGap(n0, rest0)) && start == GapThen(FirstGap(n0), BehindGap(n0, rest0))
              && (n0.items == [] <==> BehindGap(n0, rest0) != "" && BehindGap(n0, rest0)[0] == Close(o))
              && (n0.items == [] ==> BehindGap(n0, rest0) == [Close(o)] + rest0 && n0 == ListNode(o, FirstGap(n0), []))
              && (n0.items != [] ==> n0 == ListNode(o, [], n0.items) && ItemsOk(n0.items, o, rest0) && start == ItemsThen(n0.items, o, rest0))
  {
    hide GapThen, GapOk, ItemsThen, ItemsOk, BehindGap, TriviumNext;
  }

  lemma Opened(o: bool, whole: string, start: string)
    requires whole == [Open(o)] + start
    ensures forall n0: Node, rest0 :: n0.ListNode? && n0.object_ == o && NodeOk(n0, rest0) && whole == NodeThen(n0, rest0) ==> ListRead(o, start, n0, rest0)
  {
    hide GapThen, GapOk, KeyThen, KeyOk, ItemsThen, ItemsOk, ItemThen, ItemOk;
    SameTail();
    forall n0: Node, rest0 | n0.ListNode? && n0.object_ == o && NodeOk(n0, rest0) && whole == NodeThen(n0, rest0)
      ensures ListRead(o, start, n0, rest0)
    {
      assert start == if n0.items == [] then GapThen(n0.gap, [Close(o)] + rest0) else ItemsThen(n0.items, o, rest0);
      if n0.items != [] {
        FirstItem(n0.items, o, rest0);
        assert n0 == ListNode(o, [], n0.items);
      }
    }
  }

  lemma FirstItem(items: seq<Item>, o: bool, rest: string)
    requires ItemsOk(items, o, rest)
    ensures var it := items[0];
            var t2 := GapThen(it.after, Tail(items, 0, o, rest));
            var t0 := KeyThen(it.key, NodeThen(it.node, t2));
            ItemsThen(items, o, rest) == GapThen(it.before, t0) && GapOk(it.before, t0) && !TriviumNext(t0) && t0 != "" && t0[0] != Close(o)
  {
    hide GapThen, GapOk, NodeThen, NodeOk, KeyOk, PiecesThen;
    var it := items[0];
    assert items[0 + 1..] == items[1..];
    ItemBegins(it, o, Tail(items, 0, o, rest));
    NodeBegins(it.node, GapThen(it.after, Tail(items, 0, o, rest)));
  }

  lemma EmptyList(start: string, o: bool, gap: Gap, rest: string, depth: nat)
    requires start == GapThen(gap, [Close(o)] + rest) && GapOk(gap, [Close(o)] + rest) && depth <= MAX_DEPTH
    ensures var n := ListNode(o, gap, []);
            NodeThen(n, rest) == [Open(o)] + start && NodeOk(n, rest) && NodeFits(n, depth) && Means(if o then Value.Object([], []) else Value.Array([]), n)
    ensures forall n0: Node, rest0 :: n0.ListNode? && ListRead(o, start, n0, rest0) && gap == FirstGap(n0) && BehindGap(n0, rest0) == [Close(o)] + rest ==>
              n0 == ListNode(o, gap, []) && rest0 == rest
  {
    hide GapThen, GapOk;
    SameTail();
  }

  lemma ListMeans(o: bool, keys: seq<string>, values: seq<Value>, items: seq<Item>, depth: nat)
    requires depth <= MAX_DEPTH
    ensures forall rest: string :: ItemsOk(items, o, rest) ==> NodeThen(ListNode(o, [], items), rest) == [Open(o)] + ItemsThen(items, o, rest) && NodeOk(ListNode(o, [], items), rest)
    ensures AllMean(values, items) && (o ==> KeysMean(keys, items)) ==> Means(if o then Value.Object(keys, values) else Value.Array(values), ListNode(o, [], items))
    ensures forall xs: seq<Item> :: NodeFits(ListNode(o, [], xs), depth) <==> ListFits(xs, o, depth + 1)
  {
    hide ItemsThen, ItemOk, KeysDiffer, ItemsFit;
  }

  lemma NoItems(start: string, o: bool, depth: nat)
    ensures CommaThen([], start) == start && CommaOk([], o, start) && ListFits([], o, depth) && AllMean([], []) && KeysMean([], [])
  {
  }

  lemma OneItem(now: string, o: bool, it: Item, next: string)
    ensures (forall it0: Item, tail0: string :: ItemOk(it0, o, tail0) && Delimited(tail0, o) && now == ItemThen(it0, tail0) ==> it == it0 && next == tail0) ==>
              ReadsItem(now, o, it, next)
  {
    hide ItemOk, ItemThen, Delimited;
  }

  lemma NoDelimiter(now: string, o: bool, it: Item, next: string)
    requires ReadsItem(now, o, it, next) && (next == "" || (next[0] != ',' && next[0] != Close(o)))
    ensures forall it0: Item, tail0: string :: ItemOk(it0, o, tail0) && Delimited(tail0, o) ==> now != ItemThen(it0, tail0)
  {
    hide ItemOk, ItemThen;
  }

  // One item more, and a comma or the closing bracket behind it.
  lemma ItemAdded(start: string, o: bool, items: seq<Item>, keys: seq<string>, values: seq<Value>, now: string, it: Item, key: string, value: Value,
                  next: string, depth: nat)
    requires start == CommaThen(items, now) && CommaOk(items, o, now) && InList(start, o, items, now)
    requires now == ItemThen(it, next) && ItemOk(it, o, next) && ReadsItem(now, o, it, next) && next != "" && (next[0] == ',' || next[0] == Close(o))
    requires ListFits(items, o, depth) && Admitted(items, it, o, depth)
    requires AllMean(values, items) && Means(value, it.node) && (o ==> KeysMean(keys, items) && HasKey(it) && key == Meanings(it.key.value.pieces))
    ensures ListFits(items + [it], o, depth) && AllMean(values + [value], items + [it]) && (o ==> KeysMean(keys + [key], items + [it]))
    ensures next[0] == ',' ==>
              start == CommaThen(items + [it], next[1..]) && CommaOk(items + [it], o, next[1..]) && InList(start, o, items + [it], next[1..])
    ensures next[0] != ',' ==>
              start == ItemsThen(items + [it], o, next[1..]) && ItemsOk(items + [it], o, next[1..])
              && forall items0: seq<Item>, rest0: string :: ItemsOk(items0, o, rest0) && start == ItemsThen(items0, o, rest0) ==> items0 == items + [it] && rest0 == next[1..]
  {
    hide CommaThen, CommaOk, InList, ItemThen, ItemOk, ReadsItem, ListFits, Admitted, Means, ItemsThen, ItemsOk, Meanings, AllOk;
    ListFitsSnoc(items, it, o, depth);
    assert next == [next[0]] + next[1..];
    if next[0] == ',' {
      CommaSnoc(items, it, o, next[1..]);
      InListStep(start, o, items, now, it, next);
    } else {
      CommaClose(items, it, o, next[1..]);
      InListEnd(start, o, items, now, it, next);
    }
  }

  lemma DocumentReading()
    ensures forall doc: Document :: DocumentOk(doc) <==>
              GapOk(doc.before, NodeThen(doc.node, GapThen(doc.after, ""))) && NodeOk(doc.node, GapThen(doc.after, "")) && GapOk(doc.after, "")
    ensures forall doc: Document :: DocumentText(doc) == GapThen(doc.before, NodeThen(doc.node, GapThen(doc.after, "")))
    ensures forall n: Node, rest: string :: NodeOk(n, rest) ==> !TriviumNext(NodeThen(n, rest))
    ensures !TriviumNext("")
  {
    hide GapThen, GapOk, NodeThen, NodeOk;
    forall n: Node, rest: string | NodeOk(n, rest)
      ensures !TriviumNext(NodeThen(n, rest))
    {
      NodeBegins(n, rest);
    }
  }

  // The reader as its callers see it: a text has a value exactly if it is a document within the limits, and
  // then the value is what the document means.
  method Parse(text: string) returns (v: Option<Value>)
    ensures v.Some? ==> exists doc :: DocumentOk(doc) && text == DocumentText(doc) && NodeFits(doc.node, 0) && Means(v.value, doc.node)
    ensures forall doc :: DocumentOk(doc) && text == DocumentText(doc) ==>
              if NodeFits(doc.node, 0) then v.Some? && Means(v.value, doc.node) else v.None?
  {
    hide DocumentOk, DocumentText, NodeFits, Means;
    var parser := new Parser(text);
    var accepted, value;
    ghost var doc;
    accepted, value, doc := parser.ParseDocument();
    v := if accepted then Some(value) else None;
  }
}
