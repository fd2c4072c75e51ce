/**
  PPMUtilModel: a store of images under reference names, with loading and
  saving in the plain PPM format and the grayscale, flip and brighten
  transforms.

  An image is a heap object (Grid) because the source's images are mutable
  lists: grayscale and brighten overwrite the source image's pixels and then
  register that same object under the destination name, so two names can
  share one grid. The flips build a fresh grid.

  Files are an abstract Disk: the text of each readable file, the pixels of
  each PNG written, and the paths that cannot be opened for writing.
 */
module PpmModel {
  import opened Wrappers
  import opened Pixels
  import opened Grids
  import opened PpmText

  datatype Disk = Disk(files: map<string, string>, pngs: map<string, Rows>, unwritable: set<string>)

  /** How a model operation ends: normally, or with the exception it throws. */
  datatype Outcome =
    | Done
      /** IllegalArgumentException: the reference name has not been loaded */
    | NotLoaded
      /** IndexOutOfBoundsException: get(0) on an image without rows */
    | NoRows
      /** IllegalArgumentException from BufferedImage: an image of width 0 */
    | ZeroWidth
      /** FileNotFoundException "File <path> not found!" */
    | Missing
      /** StringIndexOutOfBoundsException: charAt(0) on an empty line of the file */
    | EmptyLine
      /** an exception no caller catches: a bad header token or pixel sample */
    | Malformed
      /** IOException from the file writer */
    | WriteFailed

  /** What loading the file at path ends with. */
  function LoadOutcome(disk: Disk, path: string): (r: Outcome)
    ensures r == Done <==> path in disk.files && Decode(disk.files[path]).Image?
    ensures r == Missing <==> path !in disk.files
  {
    if path !in disk.files then Missing
    else match Decode(disk.files[path])
      case Image(_, _) => Done
      case BlankLine => EmptyLine
      case _ => Malformed
  }

  /** The maximum value readPPM records before reading pixels, if it gets that far. */
  function RecordedMax(disk: Disk, path: string): Option<int>
  {
    if path !in disk.files then None
    else match Decode(disk.files[path])
      case Image(_, m) => Some(m)
      case BadBody(m) => Some(m)
      case _ => None
  }

  /**
    The maximum value readPPM records fits a Java int, and a load that
    succeeds records the decoded image's maximum.
   */
  lemma RecordedMaxFits(disk: Disk, path: string)
    ensures RecordedMax(disk, path).Some? ==> IsInt32(RecordedMax(disk, path).value)
    ensures LoadOutcome(disk, path) == Done ==> RecordedMax(disk, path) == Some(Decode(disk.files[path]).maxValue)
  {
    if path in disk.files {
      DecodedImage(disk.files[path]);
    }
  }

  /** Disk after writing text to path: a text file, no longer a PNG. */
  function WriteText(disk: Disk, path: string, text: string): Disk
  {
    disk.(files := disk.files[path := text], pngs := disk.pngs - {path})
  }

  /** Disk after writing a PNG of the given pixels to path. */
  function WritePng(disk: Disk, path: string, rows: Rows): Disk
  {
    disk.(files := disk.files - {path}, pngs := disk.pngs[path := rows])
  }

  /**
    A file written with an image's PPM text loads back as that image, with
    its maximum value recorded.
   */
  lemma SavedPpmLoads(disk: Disk, path: string, rows: Rows, maxValue: int)
    requires Rectangular(rows) && |rows| > 0 && Width(rows) > 0
    requires IsInt32(|rows|) && IsInt32(Width(rows)) && IsInt32(maxValue)
    ensures var saved := WriteText(disk, path, Encode(rows, maxValue));
      LoadOutcome(saved, path) == Done && Decode(saved.files[path]) == Image(rows, maxValue) &&
      RecordedMax(saved, path) == Some(maxValue)
  {
    DecodeEncode(rows, maxValue);
  }

  /** A file written for an image whose rows are empty fails to load on its first empty line. */
  lemma SavedNoColumnsFails(disk: Disk, path: string, rows: Rows, maxValue: int)
    requires |rows| > 0 && Width(rows) == 0
    ensures LoadOutcome(WriteText(disk, path, Encode(rows, maxValue)), path) == EmptyLine
  {
    DecodeEncodeNoColumns(rows, maxValue);
  }

  /** A mutable image: the List<List<Color>> the store maps names to. */
  class Grid {
    var rows: Rows

    constructor (rows: Rows)
      ensures this.rows == rows
    {
      this.rows := rows;
    }
  }

  /** createEmptyImage: height empty rows (none when height is not positive). */
  method CreateEmptyImage(height: int) returns (image: Rows)
    ensures |image| == NonNegative(height)
    ensures forall h | 0 <= h < |image| :: image[h] == []
  {
    image := [];
    var i := 0;
    while i < height
      invariant 0 <= i && i <= NonNegative(height)
      invariant |image| == i
      invariant forall h | 0 <= h < i :: image[h] == []
    {
      image := image + [[]];
      i := i + 1;
    }
  }

  /**
    The loop of readPPM over the file's lines: every line not starting with
    '#' joined with a line separator; an empty line makes charAt(0) throw.
   */
  method ReadContent(lines: seq<string>) returns (content: Option<string>)
    ensures content.None? <==> HasBlankLine(lines)
    ensures content.Some? ==> content.value == Content(lines)
  {
    var builder := "";
    var i := 0;
    while i < |lines|
      invariant 0 <= i <= |lines|
      invariant builder == Content(lines[..i])
      invariant forall k | 0 <= k < i :: lines[k] != []
    {
      var s := lines[i];
      if s == [] {
        return None;
      }
      assert lines[..i + 1][..i] == lines[..i];
      if s[0] != '#' {
        builder := builder + (s + "\n");
      }
      i := i + 1;
    }
    assert lines[..i] == lines;
    return Some(builder);
  }

  /** The tokens from start up to (not including) end are all samples. */
  predicate SamplesBetween(ts: seq<string>, start: nat, end: nat)
  {
    start <= end <= |ts| && forall k | start <= k < end :: IsSample(ts[k])
  }

  /** The inner loop of readPPM: width pixels, three samples each. */
  method ReadRow(body: seq<string>, start: nat, width: int) returns (row: Option<seq<Pixel>>)
    requires start <= |body|
    ensures row.Some? <==> SamplesBetween(body, start, start + 3 * NonNegative(width))
    ensures row.Some? ==> row.value == RowOf(body, start, NonNegative(width))
  {
    ghost var target := RowOf(body, start, NonNegative(width));
    ghost var end := start + 3 * NonNegative(width);
    var pixels: seq<Pixel> := [];
    var pos := start;
    var j := 0;
    while j < width
      invariant 0 <= j <= NonNegative(width) && pos == start + 3 * j
      invariant SamplesBetween(body, start, pos)
      invariant pixels == target[..j]
    {
      if pos + 3 > |body| {
        return None;
      }
      if !IsSample(body[pos]) || !IsSample(body[pos + 1]) || !IsSample(body[pos + 2]) {
        NotSampleBetween(body, start, end, pos);
        return None;
      }
      var pixel := Pixel(ParseInt(body[pos]).value, ParseInt(body[pos + 1]).value, ParseInt(body[pos + 2]).value);
      assert target[j] == PixelAt(body, pos) == pixel;
      SamplesBetweenExtend(body, start, pos);
      pixels := pixels + [pixel];
      pos := pos + 3;
      j := j + 1;
    }
    return Some(pixels);
  }

  lemma NotSampleBetween(ts: seq<string>, start: nat, end: nat, pos: nat)
    requires start <= pos && pos + 3 <= end && pos + 3 <= |ts|
    requires !IsSample(ts[pos]) || !IsSample(ts[pos + 1]) || !IsSample(ts[pos + 2])
    ensures !SamplesBetween(ts, start, end)
  {
  }

  lemma SamplesBetweenExtend(ts: seq<string>, start: nat, pos: nat)
    requires SamplesBetween(ts, start, pos) && pos + 3 <= |ts|
    requires IsSample(ts[pos]) && IsSample(ts[pos + 1]) && IsSample(ts[pos + 2])
    ensures SamplesBetween(ts, start, pos + 3)
  {
  }

  /**
    The pixel loops of readPPM: height rows of width pixels, three samples
    each, read row by row; a missing, non-int or out-of-range sample throws.
   */
  method ReadPixels(body: seq<string>, width: int, height: int) returns (image: Option<Rows>)
    ensures image.Some? <==> Samples(body, NonNegative(height) * (3 * NonNegative(width)))
    ensures image.Some? ==> image.value == GridOf(body, NonNegative(width), NonNegative(height))
  {
    var w, h := NonNegative(width), NonNegative(height);
    ghost var target := GridOf(body, w, h);
    var rows := CreateEmptyImage(height);
    var pos := 0;
    var i := 0;
    while i < height
      invariant 0 <= i <= h && |rows| == h
      invariant pos == i * (3 * w) && Samples(body, pos)
      invariant forall k | 0 <= k < i :: rows[k] == target[k]
      invariant forall k | i <= k < h :: rows[k] == []
    {
      MulSucc(i, 3 * w);
      MulMono(i + 1, h, 3 * w);
      var row := ReadRow(body, pos, width);
      if row.None? {
        return None;
      }
      rows := rows[i := row.value];
      pos := pos + 3 * w;
      i := i + 1;
    }
    assert rows == target;
    return Some(rows);
  }

  lemma RowsTextSnoc(header: string, rows: Rows, h: nat)
    requires h < |rows|
    ensures header + RowsText(rows[..h]) + RowText(rows[h]) + "\n" == header + RowsText(rows[..h + 1])
  {
    assert rows[..h + 1][..h] == rows[..h];
    Assoc(header + RowsText(rows[..h]), RowText(rows[h]), "\n");
    Assoc(header, RowsText(rows[..h]), RowLine(rows[h]));
  }

  /** The samples of one row appended to text, each followed by a space. */
  method AppendRow(text: string, row: seq<Pixel>, width: int) returns (result: string)
    requires width == |row|
    ensures result == text + RowText(row)
  {
    result := text;
    var w := 0;
    while w < width
      invariant 0 <= w <= width
      invariant result == text + RowText(row[..w])
    {
      var p := row[w];
      assert row[..w + 1][..w] == row[..w];
      Assoc(text, RowText(row[..w]), PixelText(p));
      result := result + (SampleText(p.red) + SampleText(p.green) + SampleText(p.blue));
      w := w + 1;
    }
    assert row[..w] == row;
  }

  /** The text savePPMImage builds, appended piece by piece as its StringBuilder does. */
  method BuildPPM(rows: Rows, width: int, maxValue: int) returns (text: string)
    requires Rectangular(rows) && |rows| > 0 && width == Width(rows)
    ensures text == Encode(rows, maxValue)
  {
    text := "P3\n";
    text := text + (HeaderLine(width, |rows|, maxValue) + "\n");
    ghost var header := text;
    var h := 0;
    while h < |rows|
      invariant 0 <= h <= |rows|
      invariant text == header + RowsText(rows[..h])
    {
      assert |rows[h]| == width;
      text := AppendRow(text, rows[h], width);
      text := text + "\n";
      RowsTextSnoc(header, rows, h);
      h := h + 1;
    }
    assert rows[..h] == rows;
  }

  /** One more element of t replacing the same element of b. */
  lemma SpliceStep<T>(t: seq<T>, b: seq<T>, i: nat)
    requires i < |t| == |b|
    ensures t[..i + 1] + b[i + 1..] == (t[..i] + b[i..])[i := t[i]]
  {
  }

  /** The inner loop of grayscale: row h of the image, pixel by pixel, in place. */
  method GrayscaleRow(kind: Grayscale, g: Grid, h: nat)
    requires h < |g.rows|
    modifies g
    ensures g.rows == old(g.rows)[h := GrayRow(kind, old(g.rows[h]))]
  {
    ghost var before := g.rows;
    ghost var target := GrayRow(kind, before[h]);
    var i := 0;
    assert target[..0] + before[h][0..] == before[h];
    while i < |g.rows[h]|
      invariant 0 <= i <= |before[h]|
      invariant |g.rows| == |before| && g.rows[h] == target[..i] + before[h][i..]
      invariant forall k | 0 <= k < |before| && k != h :: g.rows[k] == before[k]
    {
      var p := g.rows[h][i];
      assert p == before[h][i];
      var c := Level(kind, p);
      assert Pixel(c, c, c) == target[i];
      g.rows := g.rows[h := g.rows[h][i := Pixel(c, c, c)]];
      SpliceStep(target, before[h], i);
      i := i + 1;
    }
    assert target[..i] + before[h][i..] == target;
    assert g.rows == before[h := target];
  }

  /**
    The inner loop of brighten: the first width pixels of row h, in place,
    each channel + increment added in Java int arithmetic and then capped.
   */
  method BrightenRowInPlace(increment: int, g: Grid, h: nat, width: int)
    requires IsInt32(increment) && h < |g.rows| && width == |g.rows[h]|
    modifies g
    ensures g.rows == old(g.rows)[h := BrightenRowAsWritten(old(g.rows[h]), increment)]
  {
    ghost var before := g.rows;
    ghost var target := BrightenRowAsWritten(before[h], increment);
    var w := 0;
    assert target[..0] + before[h][0..] == before[h];
    while w < width
      invariant 0 <= w <= width
      invariant |g.rows| == |before| && g.rows[h] == target[..w] + before[h][w..]
      invariant forall k | 0 <= k < |before| && k != h :: g.rows[k] == before[k]
    {
      var p := g.rows[h][w];
      assert p == before[h][w];
      var red := BrightenChannelAsWritten(p.red, increment);
      var green := BrightenChannelAsWritten(p.green, increment);
      var blue := BrightenChannelAsWritten(p.blue, increment);
      assert Pixel(red, green, blue) == target[w];
      g.rows := g.rows[h := g.rows[h][w := Pixel(red, green, blue)]];
      SpliceStep(target, before[h], w);
      w := w + 1;
    }
    assert target[..w] + before[h][w..] == target;
    assert g.rows == before[h := target];
  }

  /** The row loop of grayscale: every row of g becomes its gray row, in place. */
  method GrayscaleInPlace(kind: Grayscale, g: Grid)
    modifies g
    ensures g.rows == GrayRows(kind, old(g.rows))
  {
    ghost var before := g.rows;
    ghost var target := GrayRows(kind, before);
    var h := 0;
    while h < |g.rows|
      invariant 0 <= h <= |before| && g.rows == target[..h] + before[h..]
    {
      assert g.rows[h] == before[h];
      GrayscaleRow(kind, g, h);
      assert GrayRow(kind, before[h]) == target[h];
      SpliceStep(target, before, h);
      h := h + 1;
    }
    assert g.rows == target;
  }

  /**
    The row loop of brighten: every row of g is brightened in place, each
    pass bounded by the width of the first row, as getWidth gives it.
   */
  method BrightenInPlace(increment: int, g: Grid)
    requires IsInt32(increment) && Rectangular(g.rows)
    modifies g
    ensures g.rows == BrightenRowsAsWritten(old(g.rows), increment)
  {
    ghost var before := g.rows;
    ghost var target := BrightenRowsAsWritten(before, increment);
    var h := 0;
    while h < |g.rows|
      invariant 0 <= h <= |before| && g.rows == target[..h] + before[h..]
    {
      assert |g.rows[0]| == |before[0]| by {
        if h > 0 {
          assert g.rows[0] == target[0];
        }
      }
      var width := |g.rows[0]|;
      assert width == |before[h]|;
      assert g.rows[h] == before[h];
      BrightenRowInPlace(increment, g, h, width);
      assert BrightenRowAsWritten(before[h], increment) == target[h];
      SpliceStep(target, before, h);
      h := h + 1;
    }
    assert g.rows == target;
  }

  /** Putting a value under a key adds at most that value to the map's values. */
  lemma ValuesUpdate<K, V>(m: map<K, V>, k: K, v: V)
    ensures m[k := v].Values <= m.Values + {v}
  {
    forall x | x in m[k := v].Values ensures x in m.Values + {v} {
      var key :| key in m[k := v] && m[k := v][key] == x;
      if key != k {
        assert m[key] == x;
      }
    }
  }

  /** The names that refer to the same grid as name: an in-place change to one shows under all. */
  function SharedWith(refs: map<string, Grid>, name: string): (names: set<string>)
    ensures names <= refs.Keys
    ensures name in refs <==> name in names
  {
    set n | n in refs && name in refs && refs[n] == refs[name]
  }

  /**
    The pixels under each name after an in-place transform: every name that
    shares the changed grid now shows rows, and dst is registered with them.
   */
  function Retouched(images: map<string, Rows>, shared: set<string>, dst: string, rows: Rows): map<string, Rows>
  {
    (map n | n in images :: if n in shared then rows else images[n])[dst := rows]
  }

  /** Every name has a maximum value and every image is rectangular. */
  predicate Consistent(images: map<string, Rows>, maxValues: map<string, int>)
  {
    images.Keys <= maxValues.Keys && forall n | n in images :: Rectangular(images[n])
  }

  /** The copying loops of flipHorizontal: each row read from its last pixel to its first. */
  method CopyFlippedH(rows: Rows) returns (image: Rows)
    requires rows != [] && Rectangular(rows)
    ensures image == FlipH(rows)
  {
    var height, width := |rows|, |rows[0]|;
    ghost var target := FlipH(rows);
    image := CreateEmptyImage(height);
    var h := 0;
    while h < height
      invariant 0 <= h <= height == |image|
      invariant forall k | 0 <= k < h :: image[k] == target[k]
      invariant forall k | h <= k < height :: image[k] == []
    {
      var w := width - 1;
      while w >= 0
        invariant -1 <= w < width && |image| == height
        invariant image[h] == target[h][..width - 1 - w]
        invariant forall k | 0 <= k < height && k != h :: image[k] == (if k < h then target[k] else [])
      {
        assert target[h][..width - w] == target[h][..width - 1 - w] + [rows[h][w]];
        image := image[h := image[h] + [rows[h][w]]];
        w := w - 1;
      }
      assert image[h] == target[h];
      h := h + 1;
    }
    assert image == target;
  }

  /** The copying loops of flipVertical: the rows read from the last to the first. */
  method CopyFlippedV(rows: Rows) returns (image: Rows)
    requires rows != [] && Rectangular(rows)
    ensures image == FlipV(rows)
  {
    var height, width := |rows|, |rows[0]|;
    ghost var target := FlipV(rows);
    image := CreateEmptyImage(height);
    var rowNum := 0;
    while rowNum < height
      invariant |image| == height
      invariant rowNum == 0 || (rowNum == height && image == target)
      invariant rowNum == 0 ==> forall k | 0 <= k < height :: image[k] == []
    {
      var h := height - 1;
      while h >= 0
        invariant -1 <= h < height && rowNum == height - 1 - h && |image| == height
        invariant forall k | 0 <= k < rowNum :: image[k] == target[k]
        invariant forall k | rowNum <= k < height :: image[k] == []
      {
        var w := 0;
        while w < width
          invariant 0 <= w <= width && |image| == height
          invariant image[rowNum] == rows[h][..w]
          invariant forall k | 0 <= k < height && k != rowNum :: image[k] == (if k < rowNum then target[k] else [])
        {
          image := image[rowNum := image[rowNum] + [rows[h][w]]];
          w := w + 1;
        }
        assert image[rowNum] == target[rowNum];
        rowNum := rowNum + 1;
        h := h - 1;
      }
      assert image == target;
    }
  }

  /** PPMUtilModel: images under reference names, and their maximum values. */
  class ImageStore {
    var imageReferences: map<string, Grid>
    var maxValues: map<string, int>

    /** Every loaded name has a maximum value, and every image is rectangular. */
    ghost predicate Valid()
      reads this, imageReferences.Values
    {
      imageReferences.Keys <= maxValues.Keys &&
      forall g | g in imageReferences.Values :: Rectangular(g.rows)
    }

    /** The pixels under each name, as values. */
    ghost function Images(): (m: map<string, Rows>)
      reads this, imageReferences.Values
      ensures m.Keys == imageReferences.Keys
      ensures Valid() ==> Consistent(m, maxValues)
    {
      map n | n in imageReferences :: imageReferences[n].rows
    }

    /**
      After an in-place change to g, registered under dst, every name that
      referred to g shows its new pixels and every other name its old ones.
     */
    lemma RetouchedImages(images: map<string, Rows>, shared: set<string>, dst: string, g: Grid,
                          refs: map<string, Grid>)
      requires imageReferences == refs[dst := g] && images.Keys == refs.Keys
      requires forall n | n in refs :: n in shared <==> refs[n] == g
      requires forall n | n in refs && refs[n] != g :: refs[n].rows == images[n]
      ensures Images() == Retouched(images, shared, dst, g.rows)
    {
    }

    constructor ()
      ensures Valid() && imageReferences == map[] && maxValues == map[]
    {
      imageReferences := map[];
      maxValues := map[];
    }

    method GetHeight(name: string) returns (height: nat)
      requires name in imageReferences
      ensures height == |imageReferences[name].rows|
    {
      height := |imageReferences[name].rows|;
    }

    /** The length of the first row; None where get(0) throws. */
    method GetWidth(name: string) returns (width: Option<nat>)
      requires name in imageReferences
      ensures imageReferences[name].rows == [] <==> width.None?
      ensures width.Some? ==> width.value == Width(imageReferences[name].rows)
    {
      var rows := imageReferences[name].rows;
      if rows == [] {
        return None;
      }
      return Some(|rows[0]|);
    }

    method GetMaxValue(name: string) returns (maxValue: int)
      requires name in maxValues
      ensures maxValue == maxValues[name]
    {
      maxValue := maxValues[name];
    }

    /** The image object itself, or null: callers that change it change the store. */
    method GetImage(name: string) returns (image: Grid?)
      ensures name in imageReferences ==> image == imageReferences[name]
      ensures name !in imageReferences ==> image == null
    {
      image := if name in imageReferences then imageReferences[name] else null;
    }

    /**
      readPPM: read the file at path; the maximum value is recorded under
      name as soon as the header is read, before any pixel.
     */
    method ReadPPM(disk: Disk, path: string, name: string) returns (outcome: Outcome, image: Rows)
      requires Valid()
      modifies this
      ensures Valid() && imageReferences == old(imageReferences)
      ensures outcome == LoadOutcome(disk, path)
      ensures outcome == Done ==> image == Decode(disk.files[path]).rows
      ensures maxValues == match RecordedMax(disk, path)
                           case Some(m) => old(maxValues)[name := m]
                           case None => old(maxValues)
    {
      if path !in disk.files {
        return Missing, [];
      }
      var lines := Lines(disk.files[path]);
      var content := ReadContent(lines);
      if content.None? {
        return EmptyLine, [];
      }
      var ts := Tokens(content.value);
      if |ts| < 4 || ParseInt(ts[1]).None? || ParseInt(ts[2]).None? || ParseInt(ts[3]).None? {
        return Malformed, [];
      }
      var width, height, maxValue := ParseInt(ts[1]).value, ParseInt(ts[2]).value, ParseInt(ts[3]).value;
      maxValues := maxValues[name := maxValue];
      var pixels := ReadPixels(ts[4..], width, height);
      if pixels.None? {
        return Malformed, [];
      }
      return Done, pixels.value;
    }

    /** loadImage: on success the name refers to a fresh image of the file's pixels. */
    method LoadImage(disk: Disk, path: string, name: string) returns (outcome: Outcome)
      requires Valid()
      modifies this
      ensures Valid()
      ensures outcome == LoadOutcome(disk, path)
      ensures outcome == Done ==>
        name in imageReferences && fresh(imageReferences[name]) &&
        imageReferences[name].rows == Decode(disk.files[path]).rows &&
        imageReferences == old(imageReferences)[name := imageReferences[name]]
      ensures outcome != Done ==> imageReferences == old(imageReferences)
      ensures Images() == if outcome == Done then old(Images())[name := Decode(disk.files[path]).rows]
                          else old(Images())
      ensures maxValues == match RecordedMax(disk, path)
                           case Some(m) => old(maxValues)[name := m]
                           case None => old(maxValues)
    {
      ghost var before := Images();
      var image;
      outcome, image := ReadPPM(disk, path, name);
      assert Images() == before;
      if outcome == Done {
        var grid := new Grid(image);
        imageReferences := imageReferences[name := grid];
        assert Images() == before[name := image];
      }
    }

    /**
      savePPMImage: write the image's PPM text to path + ".ppm"; the maximum
      value is written as stored, whatever the samples are.
     */
    method SavePPMImage(disk: Disk, path: string, name: string) returns (outcome: Outcome, written: Disk)
      requires Valid()
      ensures name !in imageReferences ==> outcome == NotLoaded && written == disk
      ensures name in imageReferences && imageReferences[name].rows == [] ==> outcome == NoRows && written == disk
      ensures name in imageReferences && imageReferences[name].rows != [] ==>
        if path + ".ppm" in disk.unwritable then outcome == WriteFailed && written == disk
        else outcome == Done &&
             written == WriteText(disk, path + ".ppm", Encode(imageReferences[name].rows, maxValues[name]))
    {
      if name !in imageReferences {
        return NotLoaded, disk;
      }
      var height := GetHeight(name);
      var width := GetWidth(name);
      if width.None? {
        return NoRows, disk;
      }
      var maxValue := GetMaxValue(name);
      var rows := imageReferences[name].rows;
      var text := BuildPPM(rows, width.value, maxValue);
      if path + ".ppm" in disk.unwritable {
        return WriteFailed, disk;
      }
      return Done, WriteText(disk, path + ".ppm", text);
    }

    /**
      savePNGImage: copy the pixels into an image of the grid's size and
      write it to path + ".png". The PNG encoding itself is not modelled.
     */
    method SavePNGImage(disk: Disk, path: string, name: string) returns (outcome: Outcome, written: Disk)
      requires Valid()
      ensures name !in imageReferences ==> outcome == NotLoaded && written == disk
      ensures name in imageReferences ==>
        var rows := imageReferences[name].rows;
        if rows == [] then outcome == NoRows && written == disk
        else if Width(rows) == 0 then outcome == ZeroWidth && written == disk
        else if path + ".png" in disk.unwritable then outcome == WriteFailed && written == disk
        else outcome == Done && written == WritePng(disk, path + ".png", rows)
    {
      if name !in imageReferences {
        return NotLoaded, disk;
      }
      var rows := imageReferences[name].rows;
      var height := |rows|;
      if rows == [] {
        return NoRows, disk;
      }
      var width := |rows[0]|;
      if width == 0 {
        return ZeroWidth, disk;
      }
      var im: Rows := [];
      var h := 0;
      while h < height
        invariant 0 <= h <= height && im == rows[..h]
      {
        var line: seq<Pixel> := [];
        var w := 0;
        while w < width
          invariant 0 <= w <= width && line == rows[h][..w]
        {
          line := line + [rows[h][w]];
          w := w + 1;
        }
        assert rows[h][..w] == rows[h];
        im := im + [line];
        h := h + 1;
      }
      assert rows[..h] == rows;
      if path + ".png" in disk.unwritable {
        return WriteFailed, disk;
      }
      return Done, WritePng(disk, path + ".png", im);
    }

    /**
      grayscale: overwrite every pixel of the source image with its grayscale
      pixel, then register that same image under dst.
     */
    method Grayscale(kind: Grayscale, src: string, dst: string) returns (outcome: Outcome)
      requires Valid()
      modifies this, if src in imageReferences then {imageReferences[src]} else {}
      ensures Valid()
      ensures src !in old(imageReferences) ==> outcome == NotLoaded && unchanged(this) && Images() == old(Images())
      ensures src in old(imageReferences) ==>
        Images() == Retouched(old(Images()), SharedWith(old(imageReferences), src), dst, GrayRows(kind, old(Images())[src]))
      ensures src in old(imageReferences) ==>
        var g := old(imageReferences[src]);
        outcome == Done &&
        g.rows == GrayRows(kind, old(g.rows)) &&
        imageReferences == old(imageReferences)[dst := g] &&
        maxValues == old(maxValues)[dst := old(maxValues[src])]
    {
      if src !in imageReferences {
        return NotLoaded;
      }
      var g := imageReferences[src];
      ghost var before := g.rows;
      ghost var images, shared := Images(), SharedWith(imageReferences, src);
      GrayscaleInPlace(kind, g);
      SameShapeRectangular(g.rows, before);
      var maxValue := GetMaxValue(src);
      imageReferences := imageReferences[dst := g];
      maxValues := maxValues[dst := maxValue];
      RetouchedImages(images, shared, dst, g, old(imageReferences));
      assert Valid() by {
        ValuesUpdate(old(imageReferences), dst, g);
        forall x | x in imageReferences.Values ensures Rectangular(x.rows) {
          if x != g {
            assert x in old(imageReferences).Values;
          }
        }
      }
      return Done;
    }

    /** The two puts a flip ends with: the new image and its maximum value under dst. */
    method Register(dst: string, grid: Grid, maxValue: int)
      requires Valid() && Rectangular(grid.rows)
      modifies this
      ensures Valid()
      ensures imageReferences == old(imageReferences)[dst := grid] && maxValues == old(maxValues)[dst := maxValue]
      ensures Images() == old(Images())[dst := grid.rows]
    {
      ghost var before := Images();
      imageReferences := imageReferences[dst := grid];
      maxValues := maxValues[dst := maxValue];
      assert Images() == before[dst := grid.rows];
    }

    /** flipHorizontal: a fresh image whose rows are the source's rows reversed. */
    method FlipHorizontal(src: string, dst: string) returns (outcome: Outcome)
      requires Valid()
      modifies this
      ensures Valid()
      ensures src !in old(imageReferences) ==> outcome == NotLoaded && unchanged(this)
      ensures src in old(imageReferences) && old(imageReferences[src].rows) == [] ==>
        outcome == NoRows && unchanged(this)
      ensures src in old(imageReferences) && old(imageReferences[src].rows) != [] ==>
        outcome == Done && dst in imageReferences && fresh(imageReferences[dst]) &&
        imageReferences[dst].rows == FlipH(old(imageReferences[src].rows)) &&
        imageReferences == old(imageReferences)[dst := imageReferences[dst]] &&
        maxValues == old(maxValues)[dst := old(maxValues[src])]
      ensures Images() == if outcome == Done then old(Images())[dst := FlipH(old(Images())[src])] else old(Images())
    {
      ghost var before := Images();
      if src !in imageReferences {
        return NotLoaded;
      }
      var rows := imageReferences[src].rows;
      var height := |rows|;
      if rows == [] {
        return NoRows;
      }
      var image := CopyFlippedH(rows);
      var grid := new Grid(image);
      var maxValue := GetMaxValue(src);
      Register(dst, grid, maxValue);
      return Done;
    }

    /**
      flipVertical: a fresh image whose rows are the source's in reverse
      order, copied pixel by pixel.
     */
    method FlipVertical(src: string, dst: string) returns (outcome: Outcome)
      requires Valid()
      modifies this
      ensures Valid()
      ensures src !in old(imageReferences) ==> outcome == NotLoaded && unchanged(this)
      ensures src in old(imageReferences) && old(imageReferences[src].rows) == [] ==>
        outcome == NoRows && unchanged(this)
      ensures src in old(imageReferences) && old(imageReferences[src].rows) != [] ==>
        outcome == Done && dst in imageReferences && fresh(imageReferences[dst]) &&
        imageReferences[dst].rows == FlipV(old(imageReferences[src].rows)) &&
        imageReferences == old(imageReferences)[dst := imageReferences[dst]] &&
        maxValues == old(maxValues)[dst := old(maxValues[src])]
      ensures Images() == if outcome == Done then old(Images())[dst := FlipV(old(Images())[src])] else old(Images())
    {
      ghost var before := Images();
      if src !in imageReferences {
        return NotLoaded;
      }
      var rows := imageReferences[src].rows;
      var height := |rows|;
      if rows == [] {
        return NoRows;
      }
      var image := CopyFlippedV(rows);
      var grid := new Grid(image);
      var maxValue := GetMaxValue(src);
      Register(dst, grid, maxValue);
      return Done;
    }

    /**
      brighten: add the increment to every channel of the source image in
      place, in wrapping int arithmetic, clamp to 0..255, then register that
      same image under dst. Where no addition wraps this is the clamped map
      BrightenRows.
     */
    method Brighten(increment: int, src: string, dst: string) returns (outcome: Outcome)
      requires Valid() && IsInt32(increment)
      modifies this, if src in imageReferences then {imageReferences[src]} else {}
      ensures Valid()
      ensures src !in old(imageReferences) ==> outcome == NotLoaded && unchanged(this) && Images() == old(Images())
      ensures src in old(imageReferences) ==>
        Images() == Retouched(old(Images()), SharedWith(old(imageReferences), src), dst,
                              BrightenRowsAsWritten(old(Images())[src], increment))
      ensures src in old(imageReferences) ==>
        var g := old(imageReferences[src]);
        outcome == Done &&
        g.rows == BrightenRowsAsWritten(old(g.rows), increment) &&
        (NoOverflow(old(g.rows), increment) ==> g.rows == BrightenRows(old(g.rows), increment)) &&
        imageReferences == old(imageReferences)[dst := g] &&
        maxValues == old(maxValues)[dst := old(maxValues[src])]
    {
      if src !in imageReferences {
        return NotLoaded;
      }
      var g := imageReferences[src];
      ghost var before := g.rows;
      ghost var images, shared := Images(), SharedWith(imageReferences, src);
      BrightenInPlace(increment, g);
      BrightenRowsAgree(before, increment);
      SameShapeRectangular(g.rows, before);
      var maxValue := GetMaxValue(src);
      imageReferences := imageReferences[dst := g];
      maxValues := maxValues[dst := maxValue];
      RetouchedImages(images, shared, dst, g, old(imageReferences));
      assert Valid() by {
        ValuesUpdate(old(imageReferences), dst, g);
        forall x | x in imageReferences.Values ensures Rectangular(x.rows) {
          if x != g {
            assert x in old(imageReferences).Values;
          }
        }
      }
      return Done;
    }
  }
}
