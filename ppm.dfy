/**
 * The pixel data of the plain-text Portable Pixmap the renderer writes:
 * each channel clamped to [0, 255], each pixel printed as three decimals
 * each followed by a space, each image row on its own line
 * (the stringing and joining steps of `RenderImage` in Include/camera.h),
 * together with the reader that recovers the channels from the text.
 */
module Pixmap {
  import opened Wrappers
  import opened Text
  import opened Tracing
  import opened RenderTools

  /** The three printed channels of a pixel. */
  datatype Rgb = Rgb(r: int, g: int, b: int)

  /** A channel value the stringing step can produce. */
  predicate InByte(c: int) { 0 <= c <= 255 }

  predicate Printable(c: Rgb) { InByte(c.r) && InByte(c.g) && InByte(c.b) }

  /** `std::min(255, std::max(0, static_cast<int>(v)))`: truncated toward zero, then clamped. */
  function Channel(v: real): (c: int)
    ensures InByte(c)
  {
    var t := Trunc(v);
    if t < 0 then 0 else if t > 255 then 255 else t
  }

  /** A channel is the sample's integer part inside [0, 256), and saturates outside it. */
  lemma ChannelTruncates(v: real)
    ensures 0.0 <= v < 256.0 ==> Channel(v) as real <= v < Channel(v) as real + 1.0
    ensures v < 1.0 ==> Channel(v) == 0
    ensures v >= 255.0 ==> Channel(v) == 255
  {
  }

  /** The first three lanes of a sample, as the stringing step prints them. */
  function RgbOf(v: V4): (c: Rgb)
    ensures Printable(c)
  {
    Rgb(Channel(v.x), Channel(v.y), Channel(v.z))
  }

  /** A sample already within [0, 255] in every lane prints its truncated lanes. */
  lemma RgbOfInRange(v: V4)
    requires Within(v, 255.0)
    ensures RgbOf(v) == Rgb(Trunc(v.x), Trunc(v.y), Trunc(v.z))
  {
  }

  /** The width of a printed channel: one digit below 10, two below 100, three otherwise. */
  lemma {:induction false} DecimalWidth(n: int)
    requires InByte(n)
    ensures |Decimal(n)| == if n < 10 then 1 else if n < 100 then 2 else 3
  {
    assert Decimal(n) == Digits(n);
    if n >= 10 {
      assert Digits(n) == Digits(n / 10) + [DigitChar(n % 10)];
      if n >= 100 {
        assert Digits(n / 10) == Digits(n / 10 / 10) + [DigitChar(n / 10 % 10)];
      }
    }
  }

  /** The text `"%d %d %d "` formats for a pixel. */
  function PixelText(c: Rgb): (s: string)
    ensures |s| >= 6 && s[|s| - 1] == ' ' && '\n' !in s
  {
    Decimal(c.r) + " " + Decimal(c.g) + " " + Decimal(c.b) + " "
  }

  /** A printed pixel takes at most twelve characters, and exactly twelve when every channel has three digits. */
  lemma PixelWidth(c: Rgb)
    requires Printable(c)
    ensures |PixelText(c)| <= 12
    ensures |PixelText(c)| == 12 <==> c.r >= 100 && c.g >= 100 && c.b >= 100
  {
    DecimalWidth(c.r);
    DecimalWidth(c.g);
    DecimalWidth(c.b);
  }

  /**
   * What one `buf_ptr += std::snprintf(buf_ptr, 12, "%d %d %d ", r, g, b)`
   * leaves in the row: `snprintf` stores at most eleven characters and a
   * terminating NUL, yet returns the full length, so a twelve-character
   * pixel keeps a NUL where its trailing space belongs.
   */
  function PixelTextAsWritten(c: Rgb): (s: string)
    ensures Printable(c) ==> |s| == |PixelText(c)|
  {
    PrintableWidth(c);
    var full := PixelText(c);
    if |full| < 12 then full else full[..11] + ['\0']
  }

  lemma PrintableWidth(c: Rgb)
    ensures Printable(c) ==> |PixelText(c)| <= 12
  {
    if Printable(c) {
      PixelWidth(c);
    }
  }

  /** A pixel whose three channels all have three digits: the one `snprintf` cuts short. */
  predicate Wide(c: Rgb)
  {
    c.r >= 100 && c.g >= 100 && c.b >= 100
  }

  /** The as-written text differs from the intended one exactly for pixels whose channels all reach 100. */
  lemma AsWrittenDiffers(c: Rgb)
    requires Printable(c)
    ensures PixelTextAsWritten(c) != PixelText(c) <==> c.r >= 100 && c.g >= 100 && c.b >= 100
    ensures PixelTextAsWritten(c) != PixelText(c) ==> PixelTextAsWritten(c)[11] == '\0'
  {
    PixelWidth(c);
    var full := PixelText(c);
    if |full| == 12 {
      assert PixelTextAsWritten(c)[11] == '\0' != ' ' == full[11];
    }
  }

  /** 255 prints as "255". */
  lemma Decimal255()
    ensures Decimal(255) == "255"
  {
    assert Digits(2) == "2";
    assert Digits(25) == Digits(2) + ['5'];
    assert Digits(255) == Digits(25) + ['5'];
  }

  /** A white pixel of an 8-bit image is written with a NUL instead of its last space. */
  lemma WhitePixelHasNul()
    ensures PixelTextAsWritten(Rgb(255, 255, 255)) == "255 255 255\0"
    ensures PixelText(Rgb(255, 255, 255)) == "255 255 255 "
  {
    Decimal255();
    var full := PixelText(Rgb(255, 255, 255));
    assert full == "255 255 255 ";
    assert full[..11] == "255 255 255";
  }

  /** Reads one pixel: three decimals, each ended by a space; returns the channels and the text after them. */
  function ReadPixel(s: string): (r: Option<(Rgb, string)>)
    ensures r.Some? ==> |r.value.1| < |s|
  {
    match SplitOnce(s, ' ')
    case None => None
    case Some((red, s1)) =>
      match SplitOnce(s1, ' ')
      case None => None
      case Some((green, s2)) =>
        match SplitOnce(s2, ' ')
        case None => None
        case Some((blue, rest)) =>
          match (ParseDecimal(red), ParseDecimal(green), ParseDecimal(blue))
          case (Some(x), Some(y), Some(z)) => Some((Rgb(x, y, z), rest))
          case _ => None
  }

  /** The reader splits a pixel at its three spaces, whatever the fields hold between them. */
  lemma {:induction false} ReadPixelSplits(red: string, green: string, blue: string, rest: string)
    requires ' ' !in red && ' ' !in green && ' ' !in blue
    ensures ReadPixel(red + [' '] + (green + [' '] + (blue + [' '] + rest))) ==
      match (ParseDecimal(red), ParseDecimal(green), ParseDecimal(blue))
      case (Some(x), Some(y), Some(z)) => Some((Rgb(x, y, z), rest))
      case _ => None
  {
    var s2 := blue + [' '] + rest;
    var s1 := green + [' '] + s2;
    SplitAt(red, ' ', s1);
    SplitAt(green, ' ', s2);
    SplitAt(blue, ' ', rest);
  }

  /** A printed pixel reads back as its channels, leaving whatever followed it. */
  lemma PixelRoundTrip(c: Rgb, rest: string)
    ensures ReadPixel(PixelText(c) + rest) == Some((c, rest))
  {
    var red, green, blue := Decimal(c.r), Decimal(c.g), Decimal(c.b);
    assert PixelText(c) + rest == red + [' '] + (green + [' '] + (blue + [' '] + rest));
    ReadPixelSplits(red, green, blue, rest);
    DecimalRoundTrip(c.r);
    DecimalRoundTrip(c.g);
    DecimalRoundTrip(c.b);
  }

  /** The text of one image row: its pixels printed one after another. */
  function RowText(pixels: seq<Rgb>): (s: string)
    decreases |pixels|
  {
    if pixels == [] then "" else PixelText(pixels[0]) + RowText(pixels[1..])
  }

  /** A row's text holds no newline, so each row takes exactly one line. */
  lemma {:induction false} RowTextOneLine(pixels: seq<Rgb>)
    ensures '\n' !in RowText(pixels)
    decreases |pixels|
  {
    if pixels != [] {
      RowTextOneLine(pixels[1..]);
    }
  }

  /** Printing one more pixel appends its text to the row. */
  lemma {:induction false} RowTextSnoc(pixels: seq<Rgb>, c: Rgb)
    ensures RowText(pixels + [c]) == RowText(pixels) + PixelText(c)
    decreases |pixels|
  {
    if pixels == [] {
      assert [] + [c] == [c];
      assert [c][1..] == [];
    } else {
      assert (pixels + [c])[1..] == pixels[1..] + [c];
      RowTextSnoc(pixels[1..], c);
      AppendAssoc(PixelText(pixels[0]), RowText(pixels[1..]), PixelText(c));
    }
  }

  /** Reads a row: pixels until the text runs out. */
  function ReadRow(s: string): Option<seq<Rgb>>
    decreases |s|
  {
    if s == "" then Some([])
    else match ReadPixel(s)
      case None => None
      case Some((c, rest)) =>
        match ReadRow(rest)
        case None => None
        case Some(more) => Some([c] + more)
  }

  /** A printed pixel in front of a readable row is read first. */
  lemma ReadRowStep(c: Rgb, rest: string, more: seq<Rgb>)
    requires ReadRow(rest) == Some(more)
    ensures ReadRow(PixelText(c) + rest) == Some([c] + more)
  {
    PixelRoundTrip(c, rest);
  }

  /** A printed row reads back as its pixels. */
  lemma {:induction false} RowRoundTrip(pixels: seq<Rgb>)
    ensures ReadRow(RowText(pixels)) == Some(pixels)
    decreases |pixels|
  {
    if pixels != [] {
      RowRoundTrip(pixels[1..]);
      ReadRowStep(pixels[0], RowText(pixels[1..]), pixels[1..]);
      assert [pixels[0]] + pixels[1..] == pixels;
    }
  }

  /** The rows joined with a newline after each: `ppm += row + "\n"` for every row. */
  function Lines(rows: seq<string>): string
  {
    if rows == [] then "" else rows[0] + "\n" + Lines(rows[1..])
  }

  /** Joining one more row appends it and its newline. */
  lemma {:induction false} LinesSnoc(rows: seq<string>, row: string)
    ensures Lines(rows + [row]) == Lines(rows) + row + "\n"
    decreases |rows|
  {
    if rows == [] {
      assert [] + [row] == [row];
      assert [row][1..] == [];
    } else {
      assert (rows + [row])[1..] == rows[1..] + [row];
      LinesSnoc(rows[1..], row);
    }
  }

  /** Splits text at every newline; the text after the last newline is dropped when empty. */
  function SplitLines(s: string): seq<string>
    decreases |s|
  {
    if s == "" then []
    else match SplitOnce(s, '\n')
      case None => [s]
      case Some((line, rest)) => [line] + SplitLines(rest)
  }

  /** Rows without newlines are recovered from their join. */
  lemma {:induction false} LinesRoundTrip(rows: seq<string>)
    requires forall i :: 0 <= i < |rows| ==> '\n' !in rows[i]
    ensures SplitLines(Lines(rows)) == rows
    decreases |rows|
  {
    if rows != [] {
      var rest := Lines(rows[1..]);
      assert Lines(rows) == rows[0] + ['\n'] + rest;
      SplitAt(rows[0], '\n', rest);
      LinesRoundTrip(rows[1..]);
      assert [rows[0]] + rows[1..] == rows;
    }
  }

  /** The printed rows of an image, one text per row. */
  function RowTexts(rows: seq<seq<Rgb>>): (texts: seq<string>)
    ensures |texts| == |rows|
    ensures forall i :: 0 <= i < |rows| ==> texts[i] == RowText(rows[i])
  {
    seq(|rows|, i requires 0 <= i < |rows| => RowText(rows[i]))
  }

  /**
   * The text of a row as the stringing loop leaves it: every pixel's
   * as-written text, one after another, `buf_ptr` advancing by the full length.
   */
  function RowTextAsWritten(pixels: seq<Rgb>): string
    decreases |pixels|
  {
    if pixels == [] then "" else PixelTextAsWritten(pixels[0]) + RowTextAsWritten(pixels[1..])
  }

  /** Writing one more pixel appends its as-written text to the row. */
  lemma {:induction false} RowAsWrittenSnoc(pixels: seq<Rgb>, c: Rgb)
    ensures RowTextAsWritten(pixels + [c]) == RowTextAsWritten(pixels) + PixelTextAsWritten(c)
    decreases |pixels|
  {
    if pixels == [] {
      assert [] + [c] == [c];
      assert [c][1..] == [];
    } else {
      assert (pixels + [c])[1..] == pixels[1..] + [c];
      RowAsWrittenSnoc(pixels[1..], c);
      AppendAssoc(PixelTextAsWritten(pixels[0]), RowTextAsWritten(pixels[1..]), PixelTextAsWritten(c));
    }
  }

  /** Two concatenations with equally long first parts are equal exactly when both parts are. */
  lemma SplitEqual(a: string, b: string, c: string, d: string)
    requires |a| == |c|
    ensures a + b == c + d <==> a == c && b == d
  {
    if a + b == c + d {
      assert a == (a + b)[..|a|] == (c + d)[..|c|] == c;
      assert b == (a + b)[|a|..] == (c + d)[|c|..] == d;
    }
  }

  /** A row of printable pixels is written as intended exactly when none of its pixels is wide. */
  lemma {:induction false} RowAsWrittenAgrees(pixels: seq<Rgb>)
    requires forall i :: 0 <= i < |pixels| ==> Printable(pixels[i])
    ensures RowTextAsWritten(pixels) == RowText(pixels) <==> forall i :: 0 <= i < |pixels| ==> !Wide(pixels[i])
    decreases |pixels|
  {
    if pixels != [] {
      var c, rest := pixels[0], pixels[1..];
      assert forall i :: 0 <= i < |rest| ==> rest[i] == pixels[i + 1];
      RowAsWrittenAgrees(rest);
      AsWrittenDiffers(c);
      SplitEqual(PixelTextAsWritten(c), RowTextAsWritten(rest), PixelText(c), RowText(rest));
      if forall i :: 0 <= i < |rest| ==> !Wide(rest[i]) {
        if !Wide(c) {
          forall i | 0 <= i < |pixels|
            ensures !Wide(pixels[i])
          {
            if i > 0 {
              assert pixels[i] == rest[i - 1];
            }
          }
        }
      } else {
        var i :| 0 <= i < |rest| && Wide(rest[i]);
        assert Wide(pixels[i + 1]);
      }
    }
  }

  /** The rows of an image as the stringing loop stores them. */
  function RowTextsAsWritten(rows: seq<seq<Rgb>>): (texts: seq<string>)
    ensures |texts| == |rows|
    ensures forall i :: 0 <= i < |rows| ==> texts[i] == RowTextAsWritten(rows[i])
  {
    seq(|rows|, i requires 0 <= i < |rows| => RowTextAsWritten(rows[i]))
  }

  /** No pixel of the image has three three-digit channels. */
  predicate Narrow(rows: seq<seq<Rgb>>)
  {
    forall i, j :: 0 <= i < |rows| && 0 <= j < |rows[i]| ==> !Wide(rows[i][j])
  }

  /** Every pixel of the image holds channels in [0, 255]. */
  predicate AllPrintable(rows: seq<seq<Rgb>>)
  {
    forall i, j :: 0 <= i < |rows| && 0 <= j < |rows[i]| ==> Printable(rows[i][j])
  }

  /**
   * A pixmap as written, with a header and the stringing loop's rows, reads
   * back as the header's numbers and the pixels whenever no pixel is wide.
   */
  lemma PpmAsWrittenRoundTrip(width: int, height: int, maxval: int, rows: seq<seq<Rgb>>)
    requires AllPrintable(rows) && Narrow(rows)
    ensures ReadPpm(Header(width, height, maxval) + Lines(RowTextsAsWritten(rows))) == Some((Fields(width, height, maxval), rows))
  {
    forall i | 0 <= i < |rows|
      ensures RowTextsAsWritten(rows)[i] == RowTexts(rows)[i]
    {
      RowAsWrittenAgrees(rows[i]);
    }
    assert RowTextsAsWritten(rows) == RowTexts(rows);
    PpmRoundTrip(width, height, maxval, rows);
  }

  /** Reads one row of pixels per line. */
  function ReadRows(lines: seq<string>): Option<seq<seq<Rgb>>>
    decreases |lines|
  {
    if lines == [] then Some([])
    else match (ReadRow(lines[0]), ReadRows(lines[1..]))
      case (Some(row), Some(rows)) => Some([row] + rows)
      case _ => None
  }

  lemma {:induction false} ReadRowsRoundTrip(rows: seq<seq<Rgb>>)
    ensures ReadRows(RowTexts(rows)) == Some(rows)
    decreases |rows|
  {
    if rows != [] {
      var texts := RowTexts(rows);
      assert texts[1..] == RowTexts(rows[1..]);
      ReadRowsRoundTrip(rows[1..]);
      RowRoundTrip(rows[0]);
      assert [rows[0]] + rows[1..] == rows;
    }
  }

  /** Reads a whole pixmap: the header line, then one row of pixels per line. */
  function ReadPpm(s: string): Option<(Fields, seq<seq<Rgb>>)>
  {
    match SplitOnce(s, '\n')
    case None => None
    case Some((first, body)) =>
      match (ReadHeader(first + "\n"), ReadRows(SplitLines(body)))
      case (Some(fields), Some(rows)) => Some((fields, rows))
      case _ => None
  }

  /** A header followed by printed rows reads back as the header's numbers and the rows' pixels. */
  lemma PpmRoundTrip(width: int, height: int, maxval: int, rows: seq<seq<Rgb>>)
    ensures ReadPpm(Header(width, height, maxval) + Lines(RowTexts(rows))) == Some((Fields(width, height, maxval), rows))
  {
    var h := Header(width, height, maxval);
    var body := Lines(RowTexts(rows));
    HeaderShape(width, height, maxval);
    var first := h[..|h| - 1];
    assert h == first + ['\n'];
    SplitAt(first, '\n', body);
    HeaderRoundTrip(width, height, maxval);
    forall i | 0 <= i < |rows|
      ensures '\n' !in RowTexts(rows)[i]
    {
      RowTextOneLine(rows[i]);
    }
    LinesRoundTrip(RowTexts(rows));
    ReadRowsRoundTrip(rows);
  }
}
