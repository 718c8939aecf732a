// Strings (server/src/Json.cpp:207-291): the escapes of section 7 of RFC 8259 and the UTF-8 of section 3 of
// RFC 3629. A text is a sequence of bytes; a char stands for one byte.
module JsonString {
  import opened Wrappers
  import opened Arithmetic

  function ByteChar(b: int): char
    requires 0 <= b < 256
  {
    b as char
  }

  // ---- UTF-8 ---------------------------------------------------------------------------------------

  // What UTF-8 can encode: no surrogates, nothing beyond U+10FFFF.
  predicate Scalar(cp: int) {
    0 <= cp < 0xD800 || 0xE000 <= cp < 0x11_0000
  }

  function Utf8(cp: nat): (s: string)
    requires cp < 0x11_0000
    ensures 1 <= |s| <= 4
  {
    if cp < 0x80 then [ByteChar(cp)]
    else if cp < 0x800 then [ByteChar(0xC0 + cp / 64), ByteChar(0x80 + cp % 64)]
    else if cp < 0x1_0000 then [ByteChar(0xE0 + cp / 4096), ByteChar(0x80 + cp / 64 % 64), ByteChar(0x80 + cp % 64)]
    else [ByteChar(0xF0 + cp / 262144), ByteChar(0x80 + cp / 4096 % 64), ByteChar(0x80 + cp / 64 % 64), ByteChar(0x80 + cp % 64)]
  }

  predicate Continuation(c: char) {
    0x80 <= c as int < 0xC0
  }

  datatype Decoded = Decoded(cp: nat, length: nat)

  // A strict decoder: shortest forms only, no surrogates, nothing beyond U+10FFFF.
  function DecodeOne(s: string): Option<Decoded> {
    if s == "" then None
    else
      var a := s[0] as int;
      if a < 0x80 then Some(Decoded(a, 1))
      else if 0xC2 <= a < 0xE0 && |s| >= 2 && Continuation(s[1]) then
        Some(Decoded((a - 0xC0) * 64 + (s[1] as int - 0x80), 2))
      else if 0xE0 <= a < 0xF0 && |s| >= 3 && Continuation(s[1]) && Continuation(s[2]) then
        var cp := (a - 0xE0) * 4096 + (s[1] as int - 0x80) * 64 + (s[2] as int - 0x80);
        if cp >= 0x800 && Scalar(cp) then Some(Decoded(cp, 3)) else None
      else if 0xF0 <= a < 0xF5 && |s| >= 4 && Continuation(s[1]) && Continuation(s[2]) && Continuation(s[3]) then
        var cp := (a - 0xF0) * 262144 + (s[1] as int - 0x80) * 4096 + (s[2] as int - 0x80) * 64 + (s[3] as int - 0x80);
        if cp >= 0x1_0000 && Scalar(cp) then Some(Decoded(cp, 4)) else None
      else None
  }

  // What is encoded decodes to what it was, whatever follows.
  lemma Utf8Decodes(cp: nat, rest: string)
    requires Scalar(cp)
    ensures DecodeOne(Utf8(cp) + rest) == Some(Decoded(cp, |Utf8(cp)|))
  {
    var s := Utf8(cp) + rest;
    assert forall k | 0 <= k < |Utf8(cp)| :: s[k] == Utf8(cp)[k];
    Base64(cp);
  }

  lemma Base64(cp: nat)
    ensures cp == cp / 64 * 64 + cp % 64
    ensures cp == cp / 4096 * 4096 + cp / 64 % 64 * 64 + cp % 64
    ensures cp == cp / 262144 * 262144 + cp / 4096 % 64 * 4096 + cp / 64 % 64 * 64 + cp % 64
  {
    DivideTwice(cp, 64, 64);
    DivideTwice(cp, 4096, 64);
    var a := cp / 64;
    var b := cp / 4096;
    assert cp == a * 64 + cp % 64 && a == b * 64 + a % 64 && b == cp / 262144 * 64 + b % 64;
  }

  // What decodes is the encoding of what it decodes to.
  lemma DecodesUtf8(s: string)
    requires DecodeOne(s).Some?
    ensures var d := DecodeOne(s).value; Scalar(d.cp) && d.length <= |s| && Utf8(d.cp) == s[..d.length]
  {
    var a := s[0] as int;
    if 0xC2 <= a < 0xE0 {
      Digits64(0, 0, a - 0xC0, s[1] as int - 0x80);
    } else if 0xE0 <= a < 0xF0 {
      ThreeBytes(s);
    } else if 0xF0 <= a {
      FourBytes(s);
    }
  }

  lemma ThreeBytes(s: string)
    requires DecodeOne(s).Some? && 0xE0 <= s[0] as int < 0xF0
    ensures var d := DecodeOne(s).value; Scalar(d.cp) && d.length == 3 <= |s| && Utf8(d.cp) == s[..3]
  {
    Digits64(0, s[0] as int - 0xE0, s[1] as int - 0x80, s[2] as int - 0x80);
  }

  lemma FourBytes(s: string)
    requires DecodeOne(s).Some? && 0xF0 <= s[0] as int
    ensures var d := DecodeOne(s).value; Scalar(d.cp) && d.length == 4 <= |s| && Utf8(d.cp) == s[..4]
  {
    Digits64(s[0] as int - 0xF0, s[1] as int - 0x80, s[2] as int - 0x80, s[3] as int - 0x80);
  }

  lemma Digits64(a: nat, b: nat, c: nat, d: nat)
    requires b < 64 && c < 64 && d < 64
    ensures var n := a * 262144 + b * 4096 + c * 64 + d;
            n % 64 == d && n / 64 % 64 == c && n / 4096 % 64 == b && n / 262144 == a && n / 64 == a * 4096 + b * 64 + c && n / 4096 == a * 64 + b
  {
    var n := a * 262144 + b * 4096 + c * 64 + d;
    LastDigit(a * 4096 + b * 64 + c, d);
    LastDigit(a * 64 + b, c);
    LastDigit(a, b);
    TwoDigits(n);
    TwoDigits(n / 64);
  }

  lemma LastDigit(m: nat, d: nat)
    requires d < 64
    ensures (m * 64 + d) / 64 == m && (m * 64 + d) % 64 == d
  {
  }

  lemma TwoDigits(n: nat)
    ensures n / 4096 == n / 64 / 64 && n / 262144 == n / 4096 / 64
  {
  }

  // ---- Hexadecimal ---------------------------------------------------------------------------------

  // The value of a hexadecimal digit, or -1.
  function HexDigit(c: char): (d: int)
    ensures -1 <= d < 16
  {
    if '0' <= c <= '9' then c as int - '0' as int
    else if 'a' <= c <= 'f' then c as int - 'a' as int + 10
    else if 'A' <= c <= 'F' then c as int - 'A' as int + 10
    else -1
  }

  predicate AllHex(h: string) {
    forall k | 0 <= k < |h| :: HexDigit(h[k]) >= 0
  }

  function HexValue(h: string): nat
    requires AllHex(h)
  {
    if h == "" then 0 else HexValue(h[..|h| - 1]) * 16 + HexDigit(h[|h| - 1])
  }

  function HexChar(d: nat): (c: char)
    requires d < 16
    ensures HexDigit(c) == d
  {
    if d < 10 then ('0' as int + d) as char else ('a' as int + d - 10) as char
  }

  // The four hexadecimal digits of n.
  function Hex4(n: nat): (h: string)
    requires n < 0x1_0000
    ensures |h| == 4 && AllHex(h)
  {
    [HexChar(n / 4096), HexChar(n / 256 % 16), HexChar(n / 16 % 16), HexChar(n % 16)]
  }

  lemma Hex4Value(n: nat)
    requires n < 0x1_0000
    ensures HexValue(Hex4(n)) == n
  {
    var h := Hex4(n);
    FourDigits(h);
    DivideTwice(n, 16, 16);
    DivideTwice(n, 256, 16);
    assert n == n / 16 * 16 + n % 16 && n / 16 == n / 256 * 16 + n / 16 % 16 && n / 256 == n / 4096 * 16 + n / 256 % 16;
  }

  lemma FourDigits(h: string)
    requires |h| == 4 && AllHex(h)
    ensures HexValue(h) == ((HexDigit(h[0]) * 16 + HexDigit(h[1])) * 16 + HexDigit(h[2])) * 16 + HexDigit(h[3]) < 0x1_0000
  {
    assert h[..3][..2] == h[..2] && h[..2][..1] == h[..1] && h[..1][..0] == "";
    assert HexValue(h[..1]) == HexDigit(h[0]) && HexValue(h[..2]) == HexValue(h[..1]) * 16 + HexDigit(h[1]);
    assert HexValue(h[..3]) == HexValue(h[..2]) * 16 + HexDigit(h[2]);
  }

  // ---- What a string is made of (section 7 of RFC 8259) --------------------------------------------

  datatype Piece = Raw(c: char) | Short(e: char) | Escape(hex: string) | Pair(high: string, low: string)

  predicate Code(hex: string) {
    |hex| == 4 && AllHex(hex)
  }

  predicate PieceOk(p: Piece) {
    match p
    case Raw(c) => c != '"' && c != '\\' && c as int >= 0x20
    case Short(e) => e == '"' || e == '\\' || e == '/' || e == 'b' || e == 'f' || e == 'n' || e == 'r' || e == 't'
    case Escape(hex) => Code(hex) && !(0xD800 <= HexValue(hex) <= 0xDFFF)
    case Pair(high, low) => Code(high) && Code(low) && 0xD800 <= HexValue(high) <= 0xDBFF && 0xDC00 <= HexValue(low) <= 0xDFFF
  }

  function PieceThen(p: Piece, rest: string): string {
    match p
    case Raw(c) => [c] + rest
    case Short(e) => "\\" + ([e] + rest)
    case Escape(hex) => "\\" + ("u" + (hex + rest))
    case Pair(high, low) => "\\" + ("u" + (high + ("\\" + ("u" + (low + rest)))))
  }

  function Unescaped(e: char): char {
    if e == 'b' then ByteChar(8) else if e == 'f' then ByteChar(12) else if e == 'n' then '\n'
    else if e == 'r' then '\r' else if e == 't' then '\t' else e
  }

  function PairPoint(high: nat, low: nat): (cp: nat)
    requires 0xD800 <= high <= 0xDBFF && 0xDC00 <= low <= 0xDFFF
    ensures 0x1_0000 <= cp < 0x11_0000
  {
    0x1_0000 + (high - 0xD800) * 1024 + (low - 0xDC00)
  }

  function Meaning(p: Piece): string
    requires PieceOk(p)
  {
    match p
    case Raw(c) => [c]
    case Short(e) => [Unescaped(e)]
    case Escape(hex) => FourDigits(hex); Utf8(HexValue(hex))
    case Pair(high, low) => Utf8(PairPoint(HexValue(high), HexValue(low)))
  }

  predicate AllOk(ps: seq<Piece>) {
    forall k | 0 <= k < |ps| :: PieceOk(ps[k])
  }

  function PiecesThen(ps: seq<Piece>, rest: string): string {
    if ps == [] then rest else PieceThen(ps[0], PiecesThen(ps[1..], rest))
  }

  function Meanings(ps: seq<Piece>): string
    requires AllOk(ps)
  {
    if ps == [] then "" else Meanings(ps[..|ps| - 1]) + Meaning(ps[|ps| - 1])
  }

  function StringThen(ps: seq<Piece>, rest: string): string {
    "\"" + PiecesThen(ps, "\"" + rest)
  }

  lemma {:induction false} PiecesSnoc(ps: seq<Piece>, p: Piece, rest: string)
    ensures PiecesThen(ps + [p], rest) == PiecesThen(ps, PieceThen(p, rest))
  {
    if ps == [] {
      assert ([p])[1..] == [] && ps + [p] == [p];
    } else {
      PiecesSnoc(ps[1..], p, rest);
      assert (ps + [p])[1..] == ps[1..] + [p];
    }
  }

  lemma {:induction false} MeaningsAppend(ps: seq<Piece>, qs: seq<Piece>)
    requires AllOk(ps) && AllOk(qs)
    ensures AllOk(ps + qs) && Meanings(ps + qs) == Meanings(ps) + Meanings(qs)
  {
    hide PieceOk, Meaning, Meanings;
    if qs == [] {
      assert ps + qs == ps;
      NothingMeans();
    } else {
      var init, last := qs[..|qs| - 1], qs[|qs| - 1];
      MeaningsAppend(ps, init);
      MeaningsSnoc(ps + init, last);
      MeaningsSnoc(init, last);
      assert qs == init + [last] && ps + qs == ps + init + [last];
    }
  }

  lemma NothingMeans()
    ensures Meanings([]) == ""
  {
  }

  // ---- A printer -----------------------------------------------------------------------------------

  // One code point: as it is where it may be, else escaped; `ascii` escapes everything beyond ASCII.
  function Printed(cp: nat, ascii: bool): seq<Piece>
    requires Scalar(cp)
  {
    if cp == '"' as int || cp == '\\' as int then [Short(ByteChar(cp))]
    else if cp < 0x20 then [Escape(Hex4(cp))]
    else if cp < 0x80 then [Raw(ByteChar(cp))]
    else if !ascii then RawPieces(Utf8(cp))
    else if cp < 0x1_0000 then [Escape(Hex4(cp))]
    else [Pair(Hex4(0xD800 + (cp - 0x1_0000) / 1024), Hex4(0xDC00 + (cp - 0x1_0000) % 1024))]
  }

  function RawPieces(s: string): (ps: seq<Piece>)
    ensures |ps| == |s| && forall k | 0 <= k < |s| :: ps[k] == Raw(s[k])
  {
    if s == "" then [] else RawPieces(s[..|s| - 1]) + [Raw(s[|s| - 1])]
  }

  function PrintedAll(cps: seq<nat>, ascii: bool): seq<Piece>
    requires forall k | 0 <= k < |cps| :: Scalar(cps[k])
  {
    if cps == [] then [] else PrintedAll(cps[..|cps| - 1], ascii) + Printed(cps[|cps| - 1], ascii)
  }

  function Utf8All(cps: seq<nat>): string
    requires forall k | 0 <= k < |cps| :: Scalar(cps[k])
  {
    if cps == [] then "" else assert Scalar(cps[|cps| - 1]); Utf8All(cps[..|cps| - 1]) + Utf8(cps[|cps| - 1])
  }

  lemma {:induction false} RawMeans(s: string)
    requires forall k | 0 <= k < |s| :: PieceOk(Raw(s[k]))
    ensures AllOk(RawPieces(s)) && Meanings(RawPieces(s)) == s
  {
    if s != "" {
      hide PieceOk;
      var init := s[..|s| - 1];
      RawMeans(init);
      assert s == init + [s[|s| - 1]];
      assert RawPieces(s)[..|s| - 1] == RawPieces(init);
      assert AllOk(RawPieces(s));
    }
  }

  // Whatever is printed means what was to be printed.
  lemma PrintedMeans(cp: nat, ascii: bool)
    requires Scalar(cp)
    ensures AllOk(Printed(cp, ascii)) && Meanings(Printed(cp, ascii)) == Utf8(cp)
  {
    if 0x80 <= cp && !ascii {
      RawMeans(Utf8(cp));
    } else {
      EscapedMeans(cp, ascii);
      OneMeans(Printed(cp, ascii)[0]);
      hide *;
    }
  }

  lemma EscapedMeans(cp: nat, ascii: bool)
    requires Scalar(cp) && (cp < 0x80 || ascii)
    ensures var ps := Printed(cp, ascii); ps == [ps[0]] && PieceOk(ps[0]) && Meaning(ps[0]) == Utf8(cp)
  {
    if cp == '"' as int || cp == '\\' as int {
    } else if cp < 0x20 {
      EscapeMeans(cp);
    } else if 0x80 <= cp < 0x1_0000 {
      EscapeMeans(cp);
    } else if 0x1_0000 <= cp {
      PairMeans(cp);
    }
  }

  lemma EscapeMeans(cp: nat)
    requires Scalar(cp) && cp < 0x1_0000
    ensures var p := Escape(Hex4(cp)); PieceOk(p) && Meaning(p) == Utf8(cp)
  {
    hide HexValue, Hex4, HexDigit, AllHex, Utf8;
    Hex4Value(cp);
  }

  lemma PairMeans(cp: nat)
    requires 0x1_0000 <= cp < 0x11_0000
    ensures var p := Pair(Hex4(0xD800 + (cp - 0x1_0000) / 1024), Hex4(0xDC00 + (cp - 0x1_0000) % 1024));
            PieceOk(p) && Meaning(p) == Utf8(cp)
  {
    hide HexValue, Hex4, HexDigit, AllHex, Utf8;
    Hex4Value(0xD800 + (cp - 0x1_0000) / 1024);
    Hex4Value(0xDC00 + (cp - 0x1_0000) % 1024);
  }

  lemma OneMeans(p: Piece)
    ensures PieceOk(p) ==> AllOk([p]) && Meanings([p]) == Meaning(p)
  {
    hide PieceOk, Meaning;
    if PieceOk(p) {
      assert [p][..0] == [] && AllOk([p]);
    }
  }

  lemma {:induction false} PrintedAllMeans(cps: seq<nat>, ascii: bool)
    requires forall k | 0 <= k < |cps| :: Scalar(cps[k])
    ensures AllOk(PrintedAll(cps, ascii)) && Meanings(PrintedAll(cps, ascii)) == Utf8All(cps)
  {
    if cps != [] {
      var init, last := cps[..|cps| - 1], cps[|cps| - 1];
      PrintedAllMeans(init, ascii);
      PrintedMeans(last, ascii);
      MeaningsAppend(PrintedAll(init, ascii), Printed(last, ascii));
    }
  }

  // ---- What has been read of a string --------------------------------------------------------------

  // Whatever well-formed string was written at `start`, ps is its beginning and the rest of it comes next.
  ghost predicate Follows(start: string, ps: seq<Piece>, now: string) {
    forall ps0: seq<Piece>, rest0: string :: AllOk(ps0) && start == PiecesThen(ps0, "\"" + rest0) ==>
      |ps| <= |ps0| && ps == ps0[..|ps|] && now == PiecesThen(ps0[|ps|..], "\"" + rest0)
  }

  lemma FollowsStart(start: string)
    ensures Follows(start, [], start)
  {
    forall ps0: seq<Piece>, rest0: string | AllOk(ps0) && start == PiecesThen(ps0, "\"" + rest0)
      ensures start == PiecesThen(ps0[0..], "\"" + rest0)
    {
      assert ps0[0..] == ps0;
    }
  }

  // A quote comes next only at the end, and at the end only a quote.
  lemma FollowsEnd(start: string, ps: seq<Piece>, now: string, ps0: seq<Piece>, rest0: string)
    requires Follows(start, ps, now) && AllOk(ps0) && start == PiecesThen(ps0, "\"" + rest0)
    ensures now != "" && (now[0] == '"' <==> ps == ps0) && (ps == ps0 ==> now == "\"" + rest0)
    ensures ps != ps0 ==> |ps| < |ps0| && PieceOk(ps0[|ps|]) && now == PieceThen(ps0[|ps|], PiecesThen(ps0[|ps| + 1..], "\"" + rest0))
  {
    var later := ps0[|ps|..];
    if |ps| < |ps0| {
      assert later[0] == ps0[|ps|] && later[1..] == ps0[|ps| + 1..];
      assert PieceOk(ps0[|ps|]);
      NoQuoteFirst(later[0], PiecesThen(later[1..], "\"" + rest0));
    } else {
      assert later == [] && ps0[..|ps|] == ps0;
    }
  }

  lemma NoQuoteFirst(p: Piece, rest: string)
    requires PieceOk(p)
    ensures PieceThen(p, rest) != "" && PieceThen(p, rest)[0] != '"'
  {
  }

  lemma FollowsStep(start: string, ps: seq<Piece>, now: string, p: Piece, next: string)
    requires Follows(start, ps, now) && now != "" && now[0] != '"'
    requires forall p0: Piece, rest0: string :: PieceOk(p0) && now == PieceThen(p0, rest0) ==> p == p0 && next == rest0
    ensures Follows(start, ps + [p], next)
  {
    hide PiecesThen, PieceThen, PieceOk, AllOk;
    forall ps0: seq<Piece>, rest0: string | AllOk(ps0) && start == PiecesThen(ps0, "\"" + rest0)
      ensures |ps| + 1 <= |ps0| && ps + [p] == ps0[..|ps| + 1] && next == PiecesThen(ps0[|ps| + 1..], "\"" + rest0)
    {
      FollowsEnd(start, ps, now, ps0, rest0);
    }
  }

  // If what comes next is no piece and no quote, no well-formed string was written.
  lemma FollowsNothing(start: string, ps: seq<Piece>, now: string)
    requires Follows(start, ps, now) && (now == "" || now[0] != '"')
    requires forall p0: Piece, rest0: string :: PieceOk(p0) ==> now != PieceThen(p0, rest0)
    ensures forall ps0: seq<Piece>, rest0: string :: AllOk(ps0) ==> start != PiecesThen(ps0, "\"" + rest0)
  {
    forall ps0: seq<Piece>, rest0: string | AllOk(ps0)
      ensures start != PiecesThen(ps0, "\"" + rest0)
    {
      if start == PiecesThen(ps0, "\"" + rest0) {
        FollowsEnd(start, ps, now, ps0, rest0);
        assert false;
      }
    }
  }

  lemma MeaningsSnoc(ps: seq<Piece>, p: Piece)
    requires AllOk(ps) && PieceOk(p)
    ensures AllOk(ps + [p]) && Meanings(ps + [p]) == Meanings(ps) + Meaning(p)
  {
    hide PieceOk, Meaning;
    assert (ps + [p])[..|ps + [p]| - 1] == ps;
  }
}
