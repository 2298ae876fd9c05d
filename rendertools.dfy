/**
 * The header of the plain-text Portable Pixmap ("P3") file the renderer
 * writes: `generate_PPM_header` in rendertools.h.
 */
module RenderTools {
  import opened Wrappers
  import opened Text

  /** `1 << depth` on an `int`, for the shifts that do not overflow. */
  function Shl1(depth: int): (r: nat)
    requires 0 <= depth < 31
    ensures r >= 1
    decreases depth
  {
    if depth == 0 then 1 else 2 * Shl1(depth - 1)
  }

  /** The largest sample value a channel of `depth` bits holds, `(1 << depth) - 1`. */
  function MaxSample(depth: int): (r: nat)
    requires 0 <= depth < 31
  {
    Shl1(depth) - 1
  }

  /** "P3 ", then the width, the height and the maximum sample value, separated by spaces. */
  function Header(width: int, height: int, maxval: int): (h: string)
  {
    "P3 " + Decimal(width) + " " + Decimal(height) + " " + Decimal(maxval) + "\n"
  }

  /**
   * `generate_PPM_header` as written: the last field is `1 << channel_depth`,
   * one more than the largest sample of that depth.
   */
  function GeneratePpmHeader(resolution: seq<int>, depth: int): (h: string)
    requires |resolution| >= 2 && 0 <= depth < 31
    ensures ReadHeader(h) == Some(Fields(resolution[0], resolution[1], Shl1(depth)))
  {
    HeaderRoundTrip(resolution[0], resolution[1], Shl1(depth));
    Header(resolution[0], resolution[1], Shl1(depth))
  }

  /** The header with the largest sample value as its last field, which the pixel data is scaled to. */
  function PpmHeader(resolution: seq<int>, depth: int): (h: string)
    requires |resolution| >= 2 && 0 <= depth < 31
    ensures ReadHeader(h) == Some(Fields(resolution[0], resolution[1], MaxSample(depth)))
  {
    HeaderRoundTrip(resolution[0], resolution[1], MaxSample(depth));
    Header(resolution[0], resolution[1], MaxSample(depth))
  }

  /** The three numbers of a header, as a reader of the format finds them. */
  datatype Fields = Fields(width: int, height: int, maxval: int)

  /** Reads a header: "P3", three decimals separated by single spaces, a final newline. */
  function ReadHeader(h: string): Option<Fields>
  {
    match SplitOnce(h, ' ')
    case None => None
    case Some((magic, rest)) =>
      if magic != "P3" then None
      else match SplitOnce(rest, ' ')
      case None => None
      case Some((w, rest')) =>
        match SplitOnce(rest', ' ')
        case None => None
        case Some((ht, rest'')) =>
          match SplitOnce(rest'', '\n')
          case None => None
          case Some((m, tail)) =>
            if tail != "" then None
            else match (ParseDecimal(w), ParseDecimal(ht), ParseDecimal(m))
            case (Some(x), Some(y), Some(z)) => Some(Fields(x, y, z))
            case _ => None
  }

  /** The reader splits a header at its separators, whatever the fields hold between them. */
  lemma {:induction false} ReadSplits(w: string, ht: string, m: string)
    requires ' ' !in w && ' ' !in ht && '\n' !in m
    ensures ReadHeader("P3 " + w + " " + ht + " " + m + "\n") ==
      match (ParseDecimal(w), ParseDecimal(ht), ParseDecimal(m))
      case (Some(x), Some(y), Some(z)) => Some(Fields(x, y, z))
      case _ => None
  {
    var rest'' := m + "\n";
    var rest' := ht + " " + rest'';
    var rest := w + " " + rest';
    assert "P3 " + w + " " + ht + " " + m + "\n" == "P3" + [' '] + rest;
    SplitAt("P3", ' ', rest);
    assert rest == w + [' '] + rest';
    SplitAt(w, ' ', rest');
    assert rest' == ht + [' '] + rest'';
    SplitAt(ht, ' ', rest'');
    assert rest'' == m + ['\n'] + "";
    SplitAt(m, '\n', "");
  }

  /** A header reads back as the numbers written into it. */
  lemma HeaderRoundTrip(width: int, height: int, maxval: int)
    ensures ReadHeader(Header(width, height, maxval)) == Some(Fields(width, height, maxval))
  {
    ReadSplits(Decimal(width), Decimal(height), Decimal(maxval));
    DecimalRoundTrip(width);
    DecimalRoundTrip(height);
    DecimalRoundTrip(maxval);
  }

  /** A header starts with "P3 " and ends with its only newline. */
  lemma HeaderShape(width: int, height: int, maxval: int)
    ensures var h := Header(width, height, maxval);
      h[..3] == "P3 " && h[|h| - 1] == '\n' && '\n' !in h[..|h| - 1]
  {
    LineShape(Decimal(width), Decimal(height), Decimal(maxval));
  }

  lemma LineShape(w: string, ht: string, m: string)
    requires '\n' !in w && '\n' !in ht && '\n' !in m
    ensures var h := "P3 " + w + " " + ht + " " + m + "\n";
      h[..3] == "P3 " && h[|h| - 1] == '\n' && '\n' !in h[..|h| - 1]
  {
    var body := "P3 " + w + " " + ht + " " + m;
    var h := body + "\n";
    assert h == "P3 " + w + " " + ht + " " + m + "\n";
    assert h[..|h| - 1] == body;
    assert forall i | 0 <= i < |body| :: body[i] in "P3 " || body[i] in w || body[i] in ht || body[i] in m;
  }

  /** The header written for 8- and 16-bit channels announces 256 and 65536. */
  lemma HeaderOneAboveMaxSample(resolution: seq<int>, depth: int)
    requires |resolution| >= 2 && (depth == 8 || depth == 16)
    ensures ReadHeader(GeneratePpmHeader(resolution, depth)).Some?
    ensures ReadHeader(GeneratePpmHeader(resolution, depth)).value.maxval
      == (if depth == 8 then 256 else 65536)
    ensures ReadHeader(GeneratePpmHeader(resolution, depth)).value.maxval == MaxSample(depth) + 1
  {
    HeaderRoundTrip(resolution[0], resolution[1], Shl1(depth));
    assert Shl1(8) == 256 && Shl1(16) == 65536;
  }

  /** The corrected header announces the largest sample, which fits the format's 16-bit limit. */
  lemma HeaderAnnouncesMaxSample(resolution: seq<int>, depth: int)
    requires |resolution| >= 2 && (depth == 8 || depth == 16)
    ensures ReadHeader(PpmHeader(resolution, depth)) == Some(Fields(resolution[0], resolution[1], MaxSample(depth)))
    ensures MaxSample(depth) == (if depth == 8 then 255 else 65535)
    ensures 0 < MaxSample(depth) < 65536
  {
    HeaderRoundTrip(resolution[0], resolution[1], MaxSample(depth));
    assert Shl1(8) == 256 && Shl1(16) == 65536;
  }
}
