/**
  The plain "P3" PPM text layout as PPMUtilModel reads and writes it.

  Reading (readPPM): the text is cut into lines as Scanner.nextLine does;
  a line whose first character is '#' is dropped, and an empty line makes
  `charAt(0)` throw; the remaining lines are joined with a line separator
  and read as whitespace-separated tokens: a magic token (only warned
  about when it is not "P3"), width, height and maximum value, then three
  samples per pixel, row by row.

  Writing (savePPMImage): "P3", a line "width height maxValue", then one
  line per row in which every sample is followed by a space.
 */
module PpmText {
  import opened Wrappers
  import opened Pixels
  import opened Grids

  // ----- Decimal integers: String.format("%d") and Integer.parseInt -----

  predicate IsDigit(c: char) { '0' <= c <= '9' }

  predicate AllDigits(s: string) { forall i | 0 <= i < |s| :: IsDigit(s[i]) }

  function DigitChar(d: nat): (c: char)
    requires d < 10
    ensures IsDigit(c)
  {
    (('0' as int) + d) as char
  }

  function NatToString(n: nat): (s: string)
    ensures |s| > 0 && AllDigits(s)
  {
    if n < 10 then [DigitChar(n)] else NatToString(n / 10) + [DigitChar(n % 10)]
  }

  /** The value of a string of decimal digits, most significant first. */
  function DigitsValue(s: string): nat
    requires AllDigits(s)
  {
    if s == [] then 0 else DigitsValue(s[..|s| - 1]) * 10 + (s[|s| - 1] as int - '0' as int)
  }

  lemma {:induction false} DigitsOfNat(n: nat)
    ensures DigitsValue(NatToString(n)) == n
  {
    if n >= 10 {
      var s := NatToString(n);
      assert s[..|s| - 1] == NatToString(n / 10);
      DigitsOfNat(n / 10);
    }
  }

  /** String.format("%d", n): a minus sign for negatives, then the digits. */
  function IntToString(n: int): (s: string)
    ensures |s| > 0 && (IsDigit(s[0]) <==> n >= 0)
    ensures n < 0 ==> s[0] == '-'
  {
    if n < 0 then "-" + NatToString(-n) else NatToString(n)
  }

  /**
    Integer.parseInt, and Scanner.nextInt on one token: an optional sign,
    at least one ASCII digit, and a value that fits a Java int.
   */
  function ParseInt(s: string): (r: Option<int>)
    ensures r.Some? ==> IsInt32(r.value) && |s| > 0
    ensures r.Some? && IsDigit(s[0]) ==> r.value >= 0
  {
    var signed := |s| > 0 && (s[0] == '-' || s[0] == '+');
    var digits := if signed then s[1..] else s;
    if digits == [] || !AllDigits(digits) then None
    else
      var v: int := if signed && s[0] == '-' then -(DigitsValue(digits) as int) else DigitsValue(digits);
      if IsInt32(v) then Some(v) else None
  }

  lemma ParseIntDigits(d: string)
    requires d != [] && AllDigits(d) && IsInt32(DigitsValue(d))
    ensures ParseInt(d) == Some(DigitsValue(d) as int)
  {
    assert IsDigit(d[0]);
  }

  lemma ParseIntMinusDigits(d: string)
    requires d != [] && AllDigits(d) && IsInt32(-(DigitsValue(d) as int))
    ensures ParseInt(['-'] + d) == Some(-(DigitsValue(d) as int))
  {
    var s := ['-'] + d;
    assert s[0] == '-' && s[1..] == d;
  }

  /** Whatever %d writes for an int, parseInt reads back. */
  lemma {:induction false} ParseIntToString(n: int)
    requires IsInt32(n)
    ensures ParseInt(IntToString(n)) == Some(n)
  {
    if n < 0 {
      var d := NatToString(-n);
      DigitsOfNat(-n);
      assert IntToString(n) == ['-'] + d;
      ParseIntMinusDigits(d);
    } else {
      DigitsOfNat(n);
      ParseIntDigits(NatToString(n));
    }
  }

  // ----- Lines, as Scanner.nextLine yields them -----

  function LineEnd(s: string): (n: nat)
    ensures n <= |s|
  {
    if s == [] || s[0] == '\n' then 0 else 1 + LineEnd(s[1..])
  }

  /** The lines of s: the pieces between '\n's, with no empty piece after a final '\n'. */
  function Lines(s: string): seq<string>
    decreases |s|
  {
    if s == [] then []
    else
      var n := LineEnd(s);
      [s[..n]] + if n < |s| then Lines(s[n + 1..]) else []
  }

  /** No '\n' comes before the end of the first line. */
  lemma {:induction false} LineEndStops(s: string)
    ensures forall i | 0 <= i < LineEnd(s) :: s[i] != '\n'
    decreases |s|
  {
    if s != [] && s[0] != '\n' {
      LineEndStops(s[1..]);
    }
  }

  /** Lines never hold a '\n', and only empty text has none. */
  lemma {:induction false} LinesOfText(s: string)
    ensures Lines(s) == [] <==> s == []
    ensures forall i | 0 <= i < |Lines(s)| :: '\n' !in Lines(s)[i]
    decreases |s|
  {
    if s != [] {
      var n := LineEnd(s);
      var rest := if n < |s| then Lines(s[n + 1..]) else [];
      assert Lines(s) == [s[..n]] + rest;
      LineEndStops(s);
      assert '\n' !in s[..n];
      if n < |s| {
        LinesOfText(s[n + 1..]);
      }
      forall i | 1 <= i < |Lines(s)| ensures '\n' !in Lines(s)[i] {
        assert Lines(s)[i] == rest[i - 1];
      }
    }
  }

  /** Text that is empty or ends a line. */
  predicate EndsLine(s: string) { s == [] || s[|s| - 1] == '\n' }

  lemma {:induction false} LineEndAppend(a: string, b: string)
    requires a != [] && a[|a| - 1] == '\n'
    ensures LineEnd(a) < |a| && LineEnd(a + b) == LineEnd(a)
  {
    if a[0] != '\n' {
      assert (a + b)[1..] == a[1..] + b;
      LineEndAppend(a[1..], b);
    }
  }

  /** Text that ends a line splits into lines independently of what follows. */
  lemma {:induction false} LinesAppend(a: string, b: string)
    requires EndsLine(a)
    ensures Lines(a + b) == Lines(a) + Lines(b)
    decreases |a|
  {
    if a == [] {
      assert a + b == b;
    } else {
      var n := LineEnd(a);
      LineEndAppend(a, b);
      assert (a + b)[..n] == a[..n];
      assert (a + b)[n + 1..] == a[n + 1..] + b;
      LinesAppend(a[n + 1..], b);
    }
  }

  lemma {:induction false} LineEndOf(l: string)
    requires '\n' !in l
    ensures LineEnd(l + "\n") == |l|
  {
    if l != [] {
      assert (l + "\n")[1..] == l[1..] + "\n";
      LineEndOf(l[1..]);
    }
  }

  /** A line without a newline, followed by one, is that one line. */
  lemma {:induction false} LinesOne(l: string)
    requires '\n' !in l
    ensures Lines(l + "\n") == [l]
  {
    LineEndOf(l);
    assert (l + "\n")[..|l|] == l;
  }

  // ----- The content that readPPM tokenizes -----

  predicate IsComment(line: string) { |line| > 0 && line[0] == '#' }

  predicate HasBlankLine(lines: seq<string>) { exists i | 0 <= i < |lines| :: lines[i] == [] }

  /** The lines that are not comments, each followed by a line separator. */
  function Content(lines: seq<string>): string
  {
    if lines == [] then ""
    else
      var last := lines[|lines| - 1];
      Content(lines[..|lines| - 1]) + if IsComment(last) then "" else last + "\n"
  }

  /**
    The content ends a line, and it is empty exactly when every line is a
    comment.
   */
  lemma {:induction false} ContentOfLines(lines: seq<string>)
    ensures EndsLine(Content(lines))
    ensures Content(lines) == "" <==> forall i | 0 <= i < |lines| :: IsComment(lines[i])
    decreases |lines|
  {
    if lines != [] {
      var init := lines[..|lines| - 1];
      ContentOfLines(init);
      assert forall i | 0 <= i < |init| :: init[i] == lines[i];
    }
  }

  lemma {:induction false} ContentAppend(a: seq<string>, b: seq<string>)
    ensures Content(a + b) == Content(a) + Content(b)
    decreases |b|
  {
    if b != [] {
      var b' := b[..|b| - 1];
      assert (a + b)[..|a + b| - 1] == a + b';
      ContentAppend(a, b');
    } else {
      assert a + b == a;
    }
  }

  // ----- Whitespace-separated tokens, as Scanner.next yields them -----

  predicate IsSpace(c: char)
  {
    c == ' ' || c == '\t' || c == '\n' || c == '\r' || c == '\U{000B}' || c == '\U{000C}'
  }

  predicate NoSpace(s: string) { forall i | 0 <= i < |s| :: !IsSpace(s[i]) }

  function WordEnd(s: string): (n: nat)
    ensures n <= |s|
    ensures s != [] && !IsSpace(s[0]) ==> n > 0
  {
    if s == [] || IsSpace(s[0]) then 0 else 1 + WordEnd(s[1..])
  }

  function Tokens(s: string): seq<string>
    decreases |s|
  {
    if s == [] then []
    else if IsSpace(s[0]) then Tokens(s[1..])
    else
      var n := WordEnd(s);
      [s[..n]] + Tokens(s[n..])
  }

  /** No whitespace comes before the end of the first word. */
  lemma {:induction false} WordEndStops(s: string)
    ensures forall i | 0 <= i < WordEnd(s) :: !IsSpace(s[i])
    decreases |s|
  {
    if s != [] && !IsSpace(s[0]) {
      WordEndStops(s[1..]);
    }
  }

  /** Every token is a non-empty run of non-whitespace characters. */
  lemma {:induction false} TokensAreWords(s: string)
    ensures forall i | 0 <= i < |Tokens(s)| :: Tokens(s)[i] != [] && NoSpace(Tokens(s)[i])
    decreases |s|
  {
    if s != [] {
      if IsSpace(s[0]) {
        TokensAreWords(s[1..]);
      } else {
        WordEndStops(s);
        TokensAreWords(s[WordEnd(s)..]);
      }
    }
  }

  /** Text that is empty or ends with whitespace. */
  predicate EndsSpace(s: string) { s == [] || IsSpace(s[|s| - 1]) }

  lemma {:induction false} WordEndAppend(a: string, b: string)
    requires a != [] && IsSpace(a[|a| - 1])
    ensures WordEnd(a) < |a| && WordEnd(a + b) == WordEnd(a)
  {
    if !IsSpace(a[0]) {
      assert (a + b)[1..] == a[1..] + b;
      WordEndAppend(a[1..], b);
    }
  }

  /** Text ending in whitespace splits into tokens independently of what follows. */
  lemma {:induction false} TokensAppend(a: string, b: string)
    requires EndsSpace(a)
    ensures Tokens(a + b) == Tokens(a) + Tokens(b)
    decreases |a|
  {
    if a == [] {
      assert a + b == b;
    } else if IsSpace(a[0]) {
      assert (a + b)[1..] == a[1..] + b;
      TokensAppend(a[1..], b);
    } else {
      var n := WordEnd(a);
      WordEndAppend(a, b);
      assert (a + b)[..n] == a[..n];
      assert (a + b)[n..] == a[n..] + b;
      TokensAppend(a[n..], b);
    }
  }

  lemma {:induction false} WordEndOf(w: string, c: char)
    requires NoSpace(w) && IsSpace(c)
    ensures WordEnd(w + [c]) == |w|
  {
    if w != [] {
      assert (w + [c])[1..] == w[1..] + [c];
      WordEndOf(w[1..], c);
    }
  }

  /** A word followed by one whitespace character is that one token. */
  lemma {:induction false} TokensOne(w: string, c: char)
    requires w != [] && NoSpace(w) && IsSpace(c)
    ensures Tokens(w + [c]) == [w]
  {
    var s := w + [c];
    WordEndOf(w, c);
    assert s[..|w|] == w;
    assert s[|w|..] == [c];
    assert Tokens([c]) == [];
  }

  lemma {:induction false} NatToStringNoSpace(n: nat)
    ensures NoSpace(NatToString(n)) && '\n' !in NatToString(n)
  {
    var s := NatToString(n);
    forall i | 0 <= i < |s| ensures !IsSpace(s[i]) && s[i] != '\n' {
      assert IsDigit(s[i]);
    }
  }

  lemma {:induction false} IntToStringNoSpace(n: int)
    ensures NoSpace(IntToString(n)) && '\n' !in IntToString(n)
  {
    NatToStringNoSpace(if n < 0 then -n else n);
  }

  // ----- The text savePPMImage writes -----

  /** String.format("%d ", n). */
  function SampleText(n: int): (s: string)
    ensures |s| > 0 && s[|s| - 1] == ' ' && '\n' !in s
  {
    IntToStringNoSpace(n);
    IntToString(n) + " "
  }

  function PixelText(p: Pixel): string
  {
    SampleText(p.red) + SampleText(p.green) + SampleText(p.blue)
  }

  /** The samples of one row, each followed by a space. */
  function RowText(row: seq<Pixel>): string
  {
    if row == [] then "" else RowText(row[..|row| - 1]) + PixelText(row[|row| - 1])
  }

  /** One row and the "\n" that ends it. */
  function RowLine(row: seq<Pixel>): string
  {
    RowText(row) + "\n"
  }

  function RowsText(rows: Rows): string
  {
    if rows == [] then "" else RowsText(rows[..|rows| - 1]) + RowLine(rows[|rows| - 1])
  }

  /** String.format("%d %d %d", width, height, maxValue). */
  function HeaderLine(width: int, height: int, maxValue: int): string
  {
    SampleText(width) + SampleText(height) + IntToString(maxValue)
  }

  /** The signature line and the dimensions line. */
  function HeaderText(width: int, height: int, maxValue: int): string
  {
    "P3\n" + (HeaderLine(width, height, maxValue) + "\n")
  }

  /** The whole file savePPMImage writes for a grid and its maximum value. */
  function Encode(rows: Rows, maxValue: int): string
  {
    HeaderText(Width(rows), |rows|, maxValue) + RowsText(rows)
  }

  // ----- The samples as a token stream -----

  function PixelTokens(p: Pixel): seq<string>
  {
    [IntToString(p.red), IntToString(p.green), IntToString(p.blue)]
  }

  function RowTokens(row: seq<Pixel>): (ts: seq<string>)
    ensures |ts| == 3 * |row|
  {
    if row == [] then [] else RowTokens(row[..|row| - 1]) + PixelTokens(row[|row| - 1])
  }

  function RowsTokens(rows: Rows): seq<string>
  {
    if rows == [] then [] else RowsTokens(rows[..|rows| - 1]) + RowTokens(rows[|rows| - 1])
  }

  /** The token of channel c (0 red, 1 green, 2 blue) of a pixel. */
  function ChannelOf(p: Pixel, c: nat): Channel
    requires c < 3
  {
    if c == 0 then p.red else if c == 1 then p.green else p.blue
  }

  lemma {:induction false} RowTokensAt(row: seq<Pixel>, w: nat, c: nat)
    requires w < |row| && c < 3
    ensures RowTokens(row)[3 * w + c] == IntToString(ChannelOf(row[w], c))
  {
    var init := row[..|row| - 1];
    if w < |row| - 1 {
      RowTokensAt(init, w, c);
      assert row[w] == init[w];
    }
  }

  lemma MulMono(a: nat, b: nat, n: nat)
    requires a <= b
    ensures a * n <= b * n
  {
  }

  lemma MulSucc(a: nat, n: nat)
    ensures (a + 1) * n == a * n + n
  {
  }

  lemma {:induction false} RowsTokensLength(rows: Rows, n: nat)
    requires forall h | 0 <= h < |rows| :: |rows[h]| == n
    ensures |RowsTokens(rows)| == |rows| * (3 * n)
  {
    if rows != [] {
      RowsTokensLength(rows[..|rows| - 1], n);
      MulSucc(|rows| - 1, 3 * n);
    }
  }

  /** Sample c of pixel (h, w) is token h (3 width) + 3 w + c of the stream. */
  lemma {:induction false} RowsTokensAt(rows: Rows, h: nat, w: nat, c: nat)
    requires Rectangular(rows) && h < |rows| && w < Width(rows) && c < 3
    ensures h * (3 * Width(rows)) + 3 * w + c < |RowsTokens(rows)|
    ensures RowsTokens(rows)[h * (3 * Width(rows)) + 3 * w + c] == IntToString(ChannelOf(rows[h][w], c))
  {
    var n := Width(rows);
    var init, last := rows[..|rows| - 1], rows[|rows| - 1];
    RowsTokensLength(init, n);
    RowsTokensLength(rows, n);
    var k := h * (3 * n) + 3 * w + c;
    assert RowsTokens(rows) == RowsTokens(init) + RowTokens(last);
    if h < |init| {
      assert Rectangular(init) && Width(init) == n;
      RowsTokensAt(init, h, w, c);
      MulSucc(h, 3 * n);
      MulMono(h + 1, |init|, 3 * n);
      assert init[h] == rows[h];
    } else {
      assert k - |init| * (3 * n) == 3 * w + c;
      RowTokensAt(last, w, c);
    }
  }

  // ----- Tokens and lines of the written text -----

  lemma {:induction false} TokensSampleText(n: int)
    ensures Tokens(SampleText(n)) == [IntToString(n)]
  {
    IntToStringNoSpace(n);
    TokensOne(IntToString(n), ' ');
  }

  lemma {:induction false} TokensPixelText(p: Pixel)
    ensures EndsSpace(PixelText(p))
    ensures Tokens(PixelText(p)) == PixelTokens(p)
  {
    var r, g, b := SampleText(p.red), SampleText(p.green), SampleText(p.blue);
    TokensSampleText(p.red);
    TokensSampleText(p.green);
    TokensSampleText(p.blue);
    TokensAppend(r, g);
    assert Tokens(r + g) == [IntToString(p.red), IntToString(p.green)];
    assert (r + g)[|r + g| - 1] == g[|g| - 1] == ' ';
    TokensAppend(r + g, b);
    assert PixelText(p)[|PixelText(p)| - 1] == b[|b| - 1];
  }

  lemma {:induction false} TokensRowText(row: seq<Pixel>)
    ensures EndsSpace(RowText(row))
    ensures Tokens(RowText(row)) == RowTokens(row)
  {
    if row != [] {
      var init, last := row[..|row| - 1], row[|row| - 1];
      TokensRowText(init);
      TokensPixelText(last);
      TokensAppend(RowText(init), PixelText(last));
    }
  }

  lemma {:induction false} TokensRowsText(rows: Rows)
    ensures EndsSpace(RowsText(rows))
    ensures Tokens(RowsText(rows)) == RowsTokens(rows)
  {
    if rows != [] {
      var init, last := rows[..|rows| - 1], rows[|rows| - 1];
      TokensRowsText(init);
      TokensRowText(last);
      TokensAppend(RowText(last), "\n");
      assert Tokens("\n") == [];
      TokensAppend(RowsText(init), RowLine(last));
    }
  }

  lemma {:induction false} RowTextPlain(row: seq<Pixel>)
    ensures '\n' !in RowText(row)
    ensures |row| > 0 ==> |RowText(row)| > 0 && IsDigit(RowText(row)[0])
  {
    if row != [] {
      var init, last := row[..|row| - 1], row[|row| - 1];
      RowTextPlain(init);
      if init == [] {
        assert RowText(row) == PixelText(last);
        assert PixelText(last)[0] == IntToString(last.red)[0];
      }
    }
  }

  /** The lines of the row part: one per row, its RowText. */
  function RowLines(rows: Rows): (ls: seq<string>)
    ensures |ls| == |rows|
    ensures forall h | 0 <= h < |rows| :: ls[h] == RowText(rows[h])
  {
    if rows == [] then [] else RowLines(rows[..|rows| - 1]) + [RowText(rows[|rows| - 1])]
  }

  lemma {:induction false} LinesRowsText(rows: Rows)
    ensures EndsLine(RowsText(rows))
    ensures Lines(RowsText(rows)) == RowLines(rows)
  {
    if rows != [] {
      var init, last := rows[..|rows| - 1], rows[|rows| - 1];
      LinesRowsText(init);
      RowTextPlain(last);
      LinesOne(RowText(last));
      LinesAppend(RowsText(init), RowLine(last));
    }
  }

  lemma {:induction false} ContentRowLines(rows: Rows)
    requires forall h | 0 <= h < |rows| :: |rows[h]| > 0
    ensures Content(RowLines(rows)) == RowsText(rows)
  {
    if rows != [] {
      var init, last := rows[..|rows| - 1], rows[|rows| - 1];
      var ls := RowLines(rows);
      assert ls[..|ls| - 1] == RowLines(init);
      RowTextPlain(last);
      ContentRowLines(init);
    }
  }

  // ----- Reading -----

  /** Channel k of the stream, or 0 when that token is not a sample. */
  function SampleAt(ts: seq<string>, k: nat): Channel
  {
    if k < |ts| && ParseInt(ts[k]).Some? && 0 <= ParseInt(ts[k]).value <= MaxChannel
    then ParseInt(ts[k]).value else 0
  }

  /** A token Scanner.nextInt reads and java.awt.Color accepts. */
  predicate IsSample(t: string)
  {
    ParseInt(t).Some? && 0 <= ParseInt(t).value <= MaxChannel
  }

  /** At least n tokens, and the first n are samples. */
  predicate Samples(ts: seq<string>, n: nat)
  {
    n <= |ts| && forall k | 0 <= k < n :: IsSample(ts[k])
  }

  function PixelAt(ts: seq<string>, k: nat): Pixel
  {
    Pixel(SampleAt(ts, k), SampleAt(ts, k + 1), SampleAt(ts, k + 2))
  }

  /** One row of width pixels read from the stream, starting at token start. */
  function RowOf(ts: seq<string>, start: nat, width: nat): (r: seq<Pixel>)
    ensures |r| == width
  {
    seq(width, w requires 0 <= w < width => PixelAt(ts, start + 3 * w))
  }

  /** The grid read row-major from the stream: pixel (h, w) starts at token h (3 width) + 3 w. */
  function GridOf(ts: seq<string>, width: nat, height: nat): (r: Rows)
    ensures |r| == height && Rectangular(r) && (height > 0 ==> Width(r) == width)
  {
    seq(height, h requires 0 <= h < height => RowOf(ts, h * (3 * width), width))
  }

  /** The outcome of readPPM on a file's text. */
  datatype Decoding =
    | Image(rows: Rows, maxValue: int)
      /** an empty line: charAt(0) throws StringIndexOutOfBoundsException */
    | BlankLine
      /** no magic token, or width, height or maximum missing or not an int */
    | BadHeader
      /** the pixels fail after the maximum value has been recorded */
    | BadBody(maxValue: int)

  function NonNegative(x: int): nat { if x < 0 then 0 else x }

  /** The number of samples in the body of a width-by-height image. */
  function SampleCount(width: nat, height: nat): nat { height * (3 * width) }

  function Decode(text: string): Decoding
  {
    var lines := Lines(text);
    if HasBlankLine(lines) then BlankLine
    else
      var ts := Tokens(Content(lines));
      if |ts| < 4 || ParseInt(ts[1]).None? || ParseInt(ts[2]).None? || ParseInt(ts[3]).None? then BadHeader
      else
        var width, height, maxValue := ParseInt(ts[1]).value, ParseInt(ts[2]).value, ParseInt(ts[3]).value;
        var w, h := NonNegative(width), NonNegative(height);
        if Samples(ts[4..], SampleCount(w, h)) then Image(GridOf(ts[4..], w, h), maxValue)
        else BadBody(maxValue)
  }

  /**
    A decoded image is rectangular, its dimensions and maximum value fit a
    Java int, and its file has no empty line; a body that fails still
    leaves a maximum value that fits.
   */
  lemma DecodedImage(text: string)
    ensures var r := Decode(text);
      (r.Image? ==> !HasBlankLine(Lines(text)) && Rectangular(r.rows) && IsInt32(|r.rows|) &&
                    (r.rows != [] ==> IsInt32(Width(r.rows)))) &&
      (r.Image? || r.BadBody? ==> IsInt32(r.maxValue))
  {
  }

  /** Every index below height (3 width) is sample c of some pixel (h, w). */
  lemma SplitIndex(k: nat, n: nat, m: nat) returns (h: nat, w: nat, c: nat)
    requires k < m * (3 * n)
    ensures h < m && w < n && c < 3 && k == h * (3 * n) + 3 * w + c
  {
    h, w, c := k / (3 * n), k % (3 * n) / 3, k % (3 * n) % 3;
    if h >= m {
      MulMono(m, h, 3 * n);
    }
  }

  lemma {:induction false} GridOfTokens(rows: Rows)
    requires Rectangular(rows) && |rows| > 0
    ensures Samples(RowsTokens(rows), |rows| * (3 * Width(rows)))
    ensures GridOf(RowsTokens(rows), Width(rows), |rows|) == rows
  {
    var n := Width(rows);
    var ts := RowsTokens(rows);
    RowsTokensLength(rows, n);
    forall k | 0 <= k < |rows| * (3 * n) ensures IsSample(ts[k]) {
      var h, w, c := SplitIndex(k, n, |rows|);
      RowsTokensAt(rows, h, w, c);
      ParseIntToString(ChannelOf(rows[h][w], c));
    }
    var g := GridOf(ts, n, |rows|);
    forall h | 0 <= h < |rows| ensures g[h] == rows[h] {
      forall w | 0 <= w < n ensures g[h][w] == rows[h][w] {
        RowsTokensAt(rows, h, w, 0);
        RowsTokensAt(rows, h, w, 1);
        RowsTokensAt(rows, h, w, 2);
        ParseIntToString(rows[h][w].red);
        ParseIntToString(rows[h][w].green);
        ParseIntToString(rows[h][w].blue);
      }
    }
  }

  lemma {:induction false} HeaderPlain(width: int, height: int, maxValue: int)
    ensures '\n' !in HeaderLine(width, height, maxValue)
    ensures HeaderLine(width, height, maxValue) != [] && !IsComment(HeaderLine(width, height, maxValue))
  {
    IntToStringNoSpace(maxValue);
    var l := HeaderLine(width, height, maxValue);
    assert l[0] == IntToString(width)[0];
  }

  lemma {:induction false} LinesOfHeader(width: int, height: int, maxValue: int)
    ensures EndsLine(HeaderText(width, height, maxValue))
    ensures Lines(HeaderText(width, height, maxValue)) == ["P3", HeaderLine(width, height, maxValue)]
  {
    var l := HeaderLine(width, height, maxValue);
    HeaderPlain(width, height, maxValue);
    var magic: string := "P3";
    assert magic + "\n" == "P3\n";
    LinesOne(l);
    LinesOne(magic);
    LinesAppend(magic + "\n", l + "\n");
  }

  lemma {:induction false} LinesOfEncode(rows: Rows, maxValue: int)
    ensures Lines(Encode(rows, maxValue)) == ["P3", HeaderLine(Width(rows), |rows|, maxValue)] + RowLines(rows)
  {
    LinesOfHeader(Width(rows), |rows|, maxValue);
    LinesRowsText(rows);
    LinesAppend(HeaderText(Width(rows), |rows|, maxValue), RowsText(rows));
  }

  lemma {:induction false} ContentOfHeader(width: int, height: int, maxValue: int)
    ensures Content(["P3", HeaderLine(width, height, maxValue)]) == HeaderText(width, height, maxValue)
  {
    var l := HeaderLine(width, height, maxValue);
    HeaderPlain(width, height, maxValue);
    assert ["P3", l][..1] == ["P3"];
    assert ["P3"][..0] == [];
    assert Content(["P3"]) == "P3\n";
  }

  lemma {:induction false} ContentOfEncode(rows: Rows, maxValue: int)
    requires Rectangular(rows) && |rows| > 0 && Width(rows) > 0
    ensures !HasBlankLine(Lines(Encode(rows, maxValue)))
    ensures Content(Lines(Encode(rows, maxValue))) == Encode(rows, maxValue)
  {
    var header := ["P3", HeaderLine(Width(rows), |rows|, maxValue)];
    var body := RowLines(rows);
    LinesOfEncode(rows, maxValue);
    HeaderPlain(Width(rows), |rows|, maxValue);
    forall i | 0 <= i < |body| ensures body[i] != [] {
      RowTextPlain(rows[i]);
    }
    assert !HasBlankLine(header + body);
    ContentRowLines(rows);
    ContentOfHeader(Width(rows), |rows|, maxValue);
    ContentAppend(header, body);
  }

  lemma {:induction false} TokensOfHeaderLine(width: int, height: int, maxValue: int)
    ensures EndsSpace(HeaderLine(width, height, maxValue) + "\n")
    ensures Tokens(HeaderLine(width, height, maxValue) + "\n") ==
      [IntToString(width), IntToString(height), IntToString(maxValue)]
  {
    var a, b := SampleText(width), SampleText(height);
    var c := IntToString(maxValue);
    var nl: string := "\n";
    var line := HeaderLine(width, height, maxValue) + nl;
    Assoc(a + b, c, nl);
    assert line == (a + b) + (c + nl);
    assert line[|line| - 1] == '\n';
    TokensSampleText(width);
    TokensSampleText(height);
    TokensAppend(a, b);
    assert Tokens(a + b) == [IntToString(width), IntToString(height)];
    assert (a + b)[|a + b| - 1] == ' ';
    IntToStringNoSpace(maxValue);
    TokensOne(c, '\n');
    assert Tokens(c + nl) == [c];
    TokensAppend(a + b, c + nl);
  }

  lemma {:induction false} TokensOfHeader(width: int, height: int, maxValue: int)
    ensures EndsSpace(HeaderText(width, height, maxValue))
    ensures Tokens(HeaderText(width, height, maxValue)) ==
      ["P3", IntToString(width), IntToString(height), IntToString(maxValue)]
  {
    TokensOfHeaderLine(width, height, maxValue);
    TokensAfterMagic(HeaderLine(width, height, maxValue) + "\n");
  }

  /** The signature line is one token ahead of whatever follows it. */
  lemma TokensAfterMagic(line: string)
    requires line != [] && EndsSpace(line)
    ensures EndsSpace("P3\n" + line) && Tokens("P3\n" + line) == ["P3"] + Tokens(line)
  {
    var magic: string := "P3";
    assert "P3\n" == magic + ['\n'];
    assert NoSpace(magic);
    TokensWordThen(magic, '\n', line);
  }

  /** Regrouping a concatenation, as a step the solver is handed explicitly. */
  lemma Assoc<T>(a: seq<T>, b: seq<T>, c: seq<T>)
    ensures (a + b) + c == a + (b + c)
  {
  }

  /** A word and one whitespace character, then the rest: the word is the first token. */
  lemma TokensWordThen(w: string, c: char, rest: string)
    requires w != [] && NoSpace(w) && IsSpace(c)
    ensures Tokens(w + [c] + rest) == [w] + Tokens(rest)
  {
    TokensOne(w, c);
    TokensAppend(w + [c], rest);
  }

  lemma {:induction false} TokensOfEncode(rows: Rows, maxValue: int)
    ensures Tokens(Encode(rows, maxValue)) ==
      ["P3", IntToString(Width(rows)), IntToString(|rows|), IntToString(maxValue)] + RowsTokens(rows)
  {
    TokensOfHeader(Width(rows), |rows|, maxValue);
    TokensRowsText(rows);
    TokensAppend(HeaderText(Width(rows), |rows|, maxValue), RowsText(rows));
  }

  /**
    What savePPMImage writes, readPPM reads back: the same pixels and
    maximum, for any non-empty rectangular grid whose dimensions and
    maximum are Java ints.
   */
  lemma {:induction false} DecodeEncode(rows: Rows, maxValue: int)
    requires Rectangular(rows) && |rows| > 0 && Width(rows) > 0
    requires IsInt32(|rows|) && IsInt32(Width(rows)) && IsInt32(maxValue)
    ensures Decode(Encode(rows, maxValue)) == Image(rows, maxValue)
  {
    var text := Encode(rows, maxValue);
    ContentOfEncode(rows, maxValue);
    TokensOfEncode(rows, maxValue);
    var ts := Tokens(Content(Lines(text)));
    ParseIntToString(Width(rows));
    ParseIntToString(|rows|);
    ParseIntToString(maxValue);
    assert ts[4..] == RowsTokens(rows);
    GridOfTokens(rows);
  }

  /**
    A grid whose rows hold no pixels is written as one empty line per row,
    so reading it back stops at the first of them.
   */
  lemma {:induction false} DecodeEncodeNoColumns(rows: Rows, maxValue: int)
    requires |rows| > 0 && Width(rows) == 0
    ensures Decode(Encode(rows, maxValue)) == BlankLine
  {
    LinesOfEncode(rows, maxValue);
    var ls := Lines(Encode(rows, maxValue));
    assert ls[2] == RowText(rows[0]) == "";
  }
}
