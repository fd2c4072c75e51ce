/**
  ImageUtilControllerImpl: the read-dispatch-report loop of the image
  editor. Each turn writes a prompt, reads one line from the current source
  (the user's input, or a script once read-script has switched to it),
  splits it on single spaces, runs the command on the image store and
  writes the one message that the command's outcome maps to.
 */
module Controller {
  import opened Wrappers
  import opened Pixels
  import opened Grids
  import opened PpmText
  import opened PpmModel

  // ----- String.split(" ") -----

  /** s cut at every space: one more piece than there are spaces. */
  function Pieces(s: string): (ps: seq<string>)
    ensures |ps| >= 1
  {
    if s == [] then [""]
    else
      var rest := Pieces(s[1..]);
      if s[0] == ' ' then [""] + rest else [[s[0]] + rest[0]] + rest[1..]
  }

  /** The pieces joined back with single spaces. */
  function Join(ps: seq<string>): string
    requires |ps| >= 1
  {
    if |ps| == 1 then ps[0] else ps[0] + " " + Join(ps[1..])
  }

  function DropTrailingEmpty(ps: seq<string>): (r: seq<string>)
    ensures |r| <= |ps| && r == ps[..|r|]
    ensures r == [] || r[|r| - 1] != ""
  {
    if ps == [] || ps[|ps| - 1] != "" then ps else DropTrailingEmpty(ps[..|ps| - 1])
  }

  /**
    String.split(" "): the line itself when it has no space; otherwise its
    pieces with the trailing empty ones removed, so a line of spaces gives
    no tokens at all.
   */
  function Split(s: string): seq<string>
  {
    if ' ' !in s then [s] else DropTrailingEmpty(Pieces(s))
  }

  /** No piece holds a space. */
  lemma {:induction false} PiecesHaveNoSpace(s: string)
    ensures forall i | 0 <= i < |Pieces(s)| :: ' ' !in Pieces(s)[i]
    decreases |s|
  {
    if s != [] {
      PiecesHaveNoSpace(s[1..]);
    }
  }

  /**
    The tokens of a line hold no space, and when the line has a space the
    last token is not empty.
   */
  lemma SplitWords(s: string)
    ensures forall i | 0 <= i < |Split(s)| :: ' ' !in Split(s)[i]
    ensures ' ' in s ==> Split(s) == [] || Split(s)[|Split(s)| - 1] != ""
  {
    PiecesHaveNoSpace(s);
  }

  /** Cutting at the spaces and joining with spaces gives the text back. */
  lemma {:induction false} JoinPieces(s: string)
    ensures Join(Pieces(s)) == s
    ensures forall i | 0 <= i < |Pieces(s)| :: ' ' !in Pieces(s)[i]
  {
    if s != [] {
      var rest := Pieces(s[1..]);
      JoinPieces(s[1..]);
      if s[0] == ' ' {
        assert ([""] + rest)[1..] == rest;
        assert s == [' '] + s[1..];
      } else if |rest| == 1 {
        assert s == [s[0]] + rest[0];
      } else {
        var ps := [[s[0]] + rest[0]] + rest[1..];
        assert ps[1..] == rest[1..];
        assert Join(rest) == rest[0] + " " + Join(rest[1..]);
        assert s == [s[0]] + s[1..];
      }
    }
  }

  /** Words without spaces, joined with single spaces, cut back into the same words. */
  lemma {:induction false} PiecesJoin(ps: seq<string>)
    requires |ps| >= 1 && forall i | 0 <= i < |ps| :: ' ' !in ps[i]
    ensures Pieces(Join(ps)) == ps
  {
    if |ps| == 1 {
      var none: string := [];
      PiecesWord(ps[0], none);
      assert ps[0] + none == ps[0];
      assert Pieces(none) == [""];
      assert [ps[0] + ""] + Pieces(none)[1..] == ps;
    } else {
      PiecesJoin(ps[1..]);
      var tail := Join(ps[1..]);
      var spaced := [' '] + tail;
      assert spaced[1..] == tail;
      assert Pieces(spaced) == [""] + ps[1..];
      PiecesWord(ps[0], spaced);
      assert ps[0] + " " + tail == ps[0] + spaced;
      assert ps[0] + Pieces(spaced)[0] == ps[0];
      assert Pieces(spaced)[1..] == ps[1..];
      assert [ps[0]] + ps[1..] == ps;
    }
  }

  /** A word without spaces is the start of the first piece. */
  lemma {:induction false} PiecesWord(w: string, rest: string)
    requires ' ' !in w
    ensures Pieces(w + rest) == [w + Pieces(rest)[0]] + Pieces(rest)[1..]
  {
    if w == [] {
      assert w + rest == rest;
      assert w + Pieces(rest)[0] == Pieces(rest)[0];
      assert [Pieces(rest)[0]] + Pieces(rest)[1..] == Pieces(rest);
    } else {
      assert (w + rest)[1..] == w[1..] + rest;
      PiecesWord(w[1..], rest);
      assert [w[0]] + (w[1..] + Pieces(rest)[0]) == w + Pieces(rest)[0];
    }
  }

  /**
    Split undoes joining: words without spaces whose last one is not empty
    (or a single word) come back from the line they make.
   */
  lemma {:induction false} SplitJoin(ps: seq<string>)
    requires |ps| >= 1 && forall i | 0 <= i < |ps| :: ' ' !in ps[i]
    requires |ps| == 1 || ps[|ps| - 1] != ""
    ensures Split(Join(ps)) == ps
  {
    if |ps| > 1 {
      assert ' ' in Join(ps) by {
        assert Join(ps) == ps[0] + " " + Join(ps[1..]);
        assert Join(ps)[|ps[0]|] == ' ';
      }
      PiecesJoin(ps);
    }
  }

  lemma {:induction false} PiecesOfSpaces(s: string)
    requires forall i | 0 <= i < |s| :: s[i] == ' '
    ensures forall i | 0 <= i < |Pieces(s)| :: Pieces(s)[i] == ""
  {
    if s != [] {
      PiecesOfSpaces(s[1..]);
    }
  }

  lemma {:induction false} DropAllEmpty(ps: seq<string>)
    requires forall i | 0 <= i < |ps| :: ps[i] == ""
    ensures DropTrailingEmpty(ps) == []
  {
    if ps != [] {
      DropAllEmpty(ps[..|ps| - 1]);
    }
  }

  /**
    A line of nothing but spaces splits into no tokens at all, so even the
    command name is out of bounds; an empty line is one empty token.
   */
  lemma SpacesOnly(s: string)
    requires |s| > 0 && forall i | 0 <= i < |s| :: s[i] == ' '
    ensures Split(s) == []
  {
    assert s[0] == ' ';
    PiecesOfSpaces(s);
    DropAllEmpty(Pieces(s));
  }

  // ----- Commands -----

  datatype Command =
    | Load(path: string, name: string)
    | SavePng(path: string, name: string)
    | SavePpm(path: string, name: string)
    | Component(kind: Grayscale, src: string, dst: string)
    | FlipHorizontal(src: string, dst: string)
    | FlipVertical(src: string, dst: string)
    | Brighten(increment: int, raw: string, src: string, dst: string)
    | ReadScript(path: string)
    | Quit
      /** an argument the command indexes is missing: IndexOutOfBoundsException */
    | NotEnough
      /** Integer.parseInt rejects brighten's increment */
    | NotANumber
      /** the first token names no command */
    | Invalid
      /** no tokens at all: even input[0] is out of bounds */
    | Blank

  /** The grayscale component a "<colour>-component" command names. */
  function ComponentOf(name: string): (r: Option<Grayscale>)
  {
    match name
    case "red-component" => Some(Red)
    case "green-component" => Some(Green)
    case "blue-component" => Some(Blue)
    case "value-component" => Some(Value)
    case "intensity-component" => Some(Intensity)
    case "luma-component" => Some(Luma)
    case _ => None
  }

  /** The commands that take a path or source name and a destination name. */
  predicate TakesTwo(name: string)
  {
    name == "load" || name == "save-png" || name == "save-ppm" || ComponentOf(name).Some? ||
    name == "horizontal-flip" || name == "vertical-flip"
  }

  /** The command a line's tokens make, with arguments indexed in the source's order. */
  function Parse(ts: seq<string>): (cmd: Command)
    ensures cmd.Brighten? ==> IsInt32(cmd.increment) && ParseInt(cmd.raw) == Some(cmd.increment)
  {
    if ts == [] then Blank
    else
      var name := ts[0];
      if TakesTwo(name) then
        if |ts| < 3 then NotEnough
        else if name == "load" then Load(ts[1], ts[2])
        else if name == "save-png" then SavePng(ts[1], ts[2])
        else if name == "save-ppm" then SavePpm(ts[1], ts[2])
        else if name == "horizontal-flip" then FlipHorizontal(ts[1], ts[2])
        else if name == "vertical-flip" then FlipVertical(ts[1], ts[2])
        else Component(ComponentOf(name).value, ts[1], ts[2])
      else if name == "brighten" then
        if |ts| < 2 then NotEnough
        else if ParseInt(ts[1]).None? then NotANumber
        else if |ts| < 4 then NotEnough
        else Brighten(ParseInt(ts[1]).value, ts[1], ts[2], ts[3])
      else if name == "read-script" then
        if |ts| < 2 then NotEnough else ReadScript(ts[1])
      else if name == "q" then Quit
      else Invalid
  }

  /** Names of the commands, as the switch lists them. */
  predicate IsCommandName(name: string)
  {
    TakesTwo(name) || name == "brighten" || name == "read-script" || name == "q"
  }

  /** A command runs short exactly when an argument it indexes is missing. */
  lemma NotEnoughExactly(ts: seq<string>)
    ensures Parse(ts) == NotEnough <==>
      |ts| >= 1 &&
      ((TakesTwo(ts[0]) && |ts| < 3) ||
       (ts[0] == "read-script" && |ts| < 2) ||
       (ts[0] == "brighten" && (|ts| < 2 || (ParseInt(ts[1]).Some? && |ts| < 4))))
  {
  }

  /**
    brighten parses its increment before it looks at the names: a bad
    increment is reported even when both names are missing.
   */
  lemma BrightenIncrementFirst(ts: seq<string>)
    requires |ts| >= 2 && ts[0] == "brighten"
    ensures Parse(ts) == NotANumber <==> ParseInt(ts[1]).None?
  {
  }

  /** Only a first token of exactly "q" quits. */
  lemma QuitExactly(ts: seq<string>)
    ensures Parse(ts) == Quit <==> |ts| >= 1 && ts[0] == "q"
  {
  }

  /** An empty line is the one empty token, which names no command. */
  lemma EmptyLineInvalid()
    ensures Split("") == [""] && Parse(Split("")) == Invalid
  {
  }

  /** A line of spaces has no command name, and its turn writes no message. */
  lemma SpacesOnlyBlank(s: string, outcome: Outcome)
    requires |s| > 0 && forall i | 0 <= i < |s| :: s[i] == ' '
    ensures Parse(Split(s)) == Blank && Report(Parse(Split(s)), outcome) == []
  {
    SpacesOnly(s);
  }

  /** Any first token outside the fourteen command names is invalid input. */
  lemma InvalidExactly(ts: seq<string>)
    ensures Parse(ts) == Invalid <==> |ts| >= 1 && !IsCommandName(ts[0])
  {
  }

  // ----- Messages -----

  const Prompt := "\nEnter command or \"q\" to quit: "
  const NoMoreInputs := "No more inputs in file."
  const NotEnoughInputs := "Not enough inputs."
  const NotLoadedYet := "That image hasn't been loaded yet."
  /** The welcome banner, kept as its first line. */
  const Banner := "ImageUtil commands: \n"

  function KindName(kind: Grayscale): string
  {
    match kind
    case Red => "Red"
    case Green => "Green"
    case Blue => "Blue"
    case Value => "Value"
    case Intensity => "Intensity"
    case Luma => "Luma"
  }

  /** True for the commands that call the image store. */
  predicate CallsModel(cmd: Command)
  {
    cmd.Load? || cmd.SavePng? || cmd.SavePpm? || cmd.Component? ||
    cmd.FlipHorizontal? || cmd.FlipVertical? || cmd.Brighten?
  }

  /**
    The message a command writes for the outcome of its call; none for a
    line of spaces, and none when an exception leaves the editor.
   */
  function Report(cmd: Command, outcome: Outcome): (ms: seq<string>)
    ensures |ms| <= 1
  {
    match cmd
    case Load(path, name) =>
      (match outcome
       case Done => ["Loaded " + path + " as \"" + name + "\""]
       case Missing => ["File " + path + " not found!"]
       case EmptyLine => [NotEnoughInputs]
       case _ => [])
    case SavePng(_, _) =>
      (match outcome
       case Done => ["Save successful"]
       case NoRows => [NotEnoughInputs]
       case WriteFailed => ["The file you are trying to write to has errored."]
       case NotLoaded => [NotLoadedYet]
       case ZeroWidth => [NotLoadedYet]
       case _ => [])
    case SavePpm(_, _) =>
      (match outcome
       case Done => ["Save successful"]
       case NoRows => [NotEnoughInputs]
       case WriteFailed => ["Filepath doesn't exist!"]
       case NotLoaded => [NotLoadedYet]
       case _ => [])
    case Component(kind, _, dst) =>
      if outcome == Done then [KindName(kind) + " component saved as " + dst] else [NotLoadedYet]
    case FlipHorizontal(_, _) =>
      if outcome == Done then ["Horizontal flip completed"]
      else if outcome == NoRows then [NotEnoughInputs] else [NotLoadedYet]
    case FlipVertical(_, _) =>
      if outcome == Done then ["Vertical flip completed"]
      else if outcome == NoRows then [NotEnoughInputs] else [NotLoadedYet]
    case Brighten(_, raw, _, _) =>
      if outcome == Done then ["Image brightened by " + raw] else [NotLoadedYet]
    case ReadScript(_) =>
      if outcome == Done then ["Script file loaded"] else ["Filepath doesn't exist!"]
    case Quit => ["Quitting."]
    case NotEnough => [NotEnoughInputs]
    case NotANumber => ["Increment is not a number."]
    case Invalid => ["Invalid input, try again."]
    case Blank => []
  }

  /** The messages of successive turns, one block after another. */
  function Concat(blocks: seq<seq<string>>): seq<string>
  {
    if blocks == [] then [] else Concat(blocks[..|blocks| - 1]) + blocks[|blocks| - 1]
  }

  /** Writing one more block after the blocks so far. */
  lemma ConcatSnoc(prefix: seq<string>, blocks: seq<seq<string>>, block: seq<string>)
    ensures prefix + Concat(blocks) + block == prefix + Concat(blocks + [block])
  {
    assert (blocks + [block])[..|blocks|] == blocks;
  }

  /** An unknown name gets the same message from every save and transform. */
  lemma NotLoadedMessage(cmd: Command)
    requires CallsModel(cmd) && !cmd.Load?
    ensures Report(cmd, NotLoaded) == [NotLoadedYet]
  {
  }

  // ----- What a command does to the store, as values -----

  /** How a command ends, and the pixels, maximum values and disk it leaves. */
  datatype Effect = Effect(outcome: Outcome, images: map<string, Rows>, maxValues: map<string, int>, disk: Disk)

  /** The name a save or a transform reads its image from. */
  function Source(cmd: Command): string
  {
    match cmd
    case SavePng(_, name) => name
    case SavePpm(_, name) => name
    case Component(_, src, _) => src
    case FlipHorizontal(src, _) => src
    case FlipVertical(src, _) => src
    case Brighten(_, _, src, _) => src
    case _ => ""
  }

  /**
    What load does to the store: the maximum the file records is kept
    even when its body is then refused, and the grid is stored under the
    name only when the whole file decodes.
   */
  function LoadEffect(path: string, name: string, disk: Disk, images: map<string, Rows>,
                      maxValues: map<string, int>): (e: Effect)
    requires Consistent(images, maxValues)
    ensures Consistent(e.images, e.maxValues) && e.disk == disk
  {
    var outcome := LoadOutcome(disk, path);
    var recorded := match RecordedMax(disk, path)
                    case Some(m) => maxValues[name := m]
                    case None => maxValues;
    if outcome == Done then Effect(Done, images[name := Decode(disk.files[path]).rows], recorded, disk)
    else Effect(outcome, images, recorded, disk)
  }

  /** What save-png does: the store is left as it is and at most the file path.png is written. */
  function SavePngEffect(path: string, name: string, disk: Disk, images: map<string, Rows>,
                         maxValues: map<string, int>): (e: Effect)
    ensures e.images == images && e.maxValues == maxValues
    ensures e.outcome == Done <==> name in images && images[name] != [] && Width(images[name]) != 0 &&
                                   path + ".png" !in disk.unwritable
  {
    var same := Effect(Done, images, maxValues, disk);
    if name !in images then same.(outcome := NotLoaded)
    else if images[name] == [] then same.(outcome := NoRows)
    else if Width(images[name]) == 0 then same.(outcome := ZeroWidth)
    else if path + ".png" in disk.unwritable then same.(outcome := WriteFailed)
    else same.(disk := WritePng(disk, path + ".png", images[name]))
  }

  /** What save-ppm does: the store is left as it is and at most the file path.ppm is written. */
  function SavePpmEffect(path: string, name: string, disk: Disk, images: map<string, Rows>,
                         maxValues: map<string, int>): (e: Effect)
    requires Consistent(images, maxValues)
    ensures e.images == images && e.maxValues == maxValues
    ensures e.outcome == Done <==> name in images && images[name] != [] && path + ".ppm" !in disk.unwritable
  {
    var same := Effect(Done, images, maxValues, disk);
    if name !in images then same.(outcome := NotLoaded)
    else if images[name] == [] then same.(outcome := NoRows)
    else if path + ".ppm" in disk.unwritable then same.(outcome := WriteFailed)
    else same.(disk := WriteText(disk, path + ".ppm", Encode(images[name], maxValues[name])))
  }

  /**
    What a component command does: the target and every name sharing the
    source's grid hold the gray grid, and the target takes the source's
    maximum value.
   */
  function ComponentEffect(kind: Grayscale, src: string, dst: string, disk: Disk, images: map<string, Rows>,
                           maxValues: map<string, int>, shared: set<string>): (e: Effect)
    requires Consistent(images, maxValues)
    ensures Consistent(e.images, e.maxValues) && e.disk == disk
    ensures e.outcome != Done ==> e.outcome == NotLoaded && e.images == images && e.maxValues == maxValues
  {
    if src !in images then Effect(NotLoaded, images, maxValues, disk)
    else
      var rows := GrayRows(kind, images[src]);
      SameShapeRectangular(rows, images[src]);
      RetouchedConsistent(images, maxValues, shared, dst, rows, maxValues[src]);
      Effect(Done, Retouched(images, shared, dst, rows), maxValues[dst := maxValues[src]], disk)
  }

  /** What brighten does: as a component command, with the channels shifted by the increment. */
  function BrightenEffect(increment: int, src: string, dst: string, disk: Disk, images: map<string, Rows>,
                          maxValues: map<string, int>, shared: set<string>): (e: Effect)
    requires Consistent(images, maxValues) && IsInt32(increment)
    ensures Consistent(e.images, e.maxValues) && e.disk == disk
    ensures e.outcome != Done ==> e.outcome == NotLoaded && e.images == images && e.maxValues == maxValues
  {
    if src !in images then Effect(NotLoaded, images, maxValues, disk)
    else
      var rows := BrightenRowsAsWritten(images[src], increment);
      SameShapeRectangular(rows, images[src]);
      RetouchedConsistent(images, maxValues, shared, dst, rows, maxValues[src]);
      Effect(Done, Retouched(images, shared, dst, rows), maxValues[dst := maxValues[src]], disk)
  }

  /** What horizontal-flip does: a new mirrored grid under the target, which no other name shares. */
  function FlipHEffect(src: string, dst: string, disk: Disk, images: map<string, Rows>,
                       maxValues: map<string, int>): (e: Effect)
    requires Consistent(images, maxValues)
    ensures Consistent(e.images, e.maxValues) && e.disk == disk
    ensures e.outcome != Done ==> e.images == images && e.maxValues == maxValues
  {
    if src !in images then Effect(NotLoaded, images, maxValues, disk)
    else if images[src] == [] then Effect(NoRows, images, maxValues, disk)
    else Effect(Done, images[dst := FlipH(images[src])], maxValues[dst := maxValues[src]], disk)
  }

  /** What vertical-flip does: a new grid with the rows reversed under the target. */
  function FlipVEffect(src: string, dst: string, disk: Disk, images: map<string, Rows>,
                       maxValues: map<string, int>): (e: Effect)
    requires Consistent(images, maxValues)
    ensures Consistent(e.images, e.maxValues) && e.disk == disk
    ensures e.outcome != Done ==> e.images == images && e.maxValues == maxValues
  {
    if src !in images then Effect(NotLoaded, images, maxValues, disk)
    else if images[src] == [] then Effect(NoRows, images, maxValues, disk)
    else
      FlipVRectangular(images[src]);
      Effect(Done, images[dst := FlipV(images[src])], maxValues[dst := maxValues[src]], disk)
  }

  /**
    The store operation a command calls, on the store as values: shared
    holds the names that refer to the same grid as the source, which
    grayscale and brighten change in place.
   */
  function Apply(cmd: Command, disk: Disk, images: map<string, Rows>, maxValues: map<string, int>,
                 shared: set<string>): (e: Effect)
    requires Consistent(images, maxValues)
    requires cmd.Brighten? ==> IsInt32(cmd.increment)
    ensures Consistent(e.images, e.maxValues)
    ensures e.outcome == Malformed ==> cmd.Load?
    ensures !cmd.SavePng? && !cmd.SavePpm? ==> e.disk == disk
    ensures !CallsModel(cmd) || (!cmd.Load? && e.outcome != Done) ==>
              e.images == images && e.maxValues == maxValues
  {
    var same := Effect(Done, images, maxValues, disk);
    match cmd
    case Load(path, name) =>
      LoadEffect(path, name, disk, images, maxValues)
    case SavePng(path, name) =>
      SavePngEffect(path, name, disk, images, maxValues)
    case SavePpm(path, name) =>
      SavePpmEffect(path, name, disk, images, maxValues)
    case Component(kind, src, dst) =>
      ComponentEffect(kind, src, dst, disk, images, maxValues, shared)
    case FlipHorizontal(src, dst) =>
      FlipHEffect(src, dst, disk, images, maxValues)
    case FlipVertical(src, dst) =>
      FlipVEffect(src, dst, disk, images, maxValues)
    case Brighten(increment, _, src, dst) =>
      BrightenEffect(increment, src, dst, disk, images, maxValues, shared)
    case ReadScript(path) =>
      if path in disk.files then same else same.(outcome := Missing)
    case _ => same
  }

  lemma RetouchedConsistent(images: map<string, Rows>, maxValues: map<string, int>, shared: set<string>,
                            dst: string, rows: Rows, m: int)
    requires Consistent(images, maxValues) && Rectangular(rows)
    ensures Consistent(Retouched(images, shared, dst, rows), maxValues[dst := m])
  {
  }

  /** The line source after a command: a script that exists replaces the rest of the current source. */
  function NextSource(cmd: Command, disk: Disk, rest: seq<string>): seq<string>
  {
    if cmd.ReadScript? && cmd.path in disk.files then Lines(disk.files[cmd.path]) else rest
  }

  // ----- Properties of commands -----

  /**
    A save or a transform fails with "not loaded" exactly when its source
    name is unknown, and then it changes nothing and its message is the
    not-loaded one.
   */
  lemma {:induction false} UnknownSource(cmd: Command, disk: Disk, images: map<string, Rows>,
                                         maxValues: map<string, int>, shared: set<string>)
    requires Consistent(images, maxValues) && (cmd.Brighten? ==> IsInt32(cmd.increment))
    requires CallsModel(cmd) && !cmd.Load?
    ensures var e := Apply(cmd, disk, images, maxValues, shared);
      (e.outcome == NotLoaded <==> Source(cmd) !in images) &&
      (e.outcome == NotLoaded ==> e == Effect(NotLoaded, images, maxValues, disk) && Report(cmd, e.outcome) == [NotLoadedYet])
  {
    NotLoadedMessage(cmd);
  }

  /**
    save-ppm, then load of the file it wrote: the loaded name holds the
    saved image's pixels and maximum value.
   */
  lemma {:induction false} SaveThenLoad(disk: Disk, images: map<string, Rows>, maxValues: map<string, int>,
                                        shared: set<string>, again: set<string>, path: string, name: string,
                                        dst: string)
    requires Consistent(images, maxValues) && name in images && images[name] != [] && Width(images[name]) > 0
    requires IsInt32(|images[name]|) && IsInt32(Width(images[name])) && IsInt32(maxValues[name])
    requires path + ".ppm" !in disk.unwritable
    ensures var saved := Apply(SavePpm(path, name), disk, images, maxValues, shared);
      saved.outcome == Done && saved.images == images && saved.maxValues == maxValues &&
      var loaded := Apply(Load(path + ".ppm", dst), saved.disk, images, maxValues, again);
      loaded.outcome == Done && loaded.images == images[dst := images[name]] &&
      loaded.maxValues == maxValues[dst := maxValues[name]]
  {
    var file := path + ".ppm";
    var written := WriteText(disk, file, Encode(images[name], maxValues[name]));
    assert Apply(SavePpm(path, name), disk, images, maxValues, shared) == Effect(Done, images, maxValues, written);
    SavedPpmLoads(disk, file, images[name], maxValues[name]);
    assert LoadEffect(file, dst, written, images, maxValues) ==
      Effect(Done, images[dst := images[name]], maxValues[dst := maxValues[name]], written);
  }

  /** The command lines "save-ppm <path> <name>" and "load <path>.ppm <dst>". */
  lemma {:induction false} SaveLoadLines(path: string, name: string, dst: string)
    requires ' ' !in path && ' ' !in name && ' ' !in dst && name != "" && dst != ""
    ensures Parse(Split("save-ppm " + path + " " + name)) == SavePpm(path, name)
    ensures Parse(Split("load " + path + ".ppm " + dst)) == Load(path + ".ppm", dst)
  {
    var save, load := ["save-ppm", path, name], ["load", path + ".ppm", dst];
    assert Join(save) == "save-ppm " + path + " " + name by {
      assert Join(save[1..]) == path + " " + name by {
        assert save[1..][1..] == [name];
      }
    }
    assert ' ' !in path + ".ppm";
    assert Join(load) == "load " + path + ".ppm " + dst by {
      assert Join(load[1..]) == path + ".ppm" + " " + dst by {
        assert load[1..][1..] == [dst];
      }
    }
    SplitJoin(save);
    SplitJoin(load);
  }

  /** A horizontal flip applied to its own result gives back the source's pixels and maximum value. */
  lemma {:induction false} FlipHTwiceRestores(disk: Disk, images: map<string, Rows>, maxValues: map<string, int>,
                                              shared: set<string>, again: set<string>,
                                              src: string, mid: string, dst: string)
    requires Consistent(images, maxValues) && src in images && images[src] != []
    ensures var first := Apply(FlipHorizontal(src, mid), disk, images, maxValues, shared);
      first.outcome == Done &&
      var second := Apply(FlipHorizontal(mid, dst), disk, first.images, first.maxValues, again);
      second.outcome == Done && second.images[dst] == images[src] && second.maxValues[dst] == maxValues[src]
  {
    var once := FlipH(images[src]);
    var first := Apply(FlipHorizontal(src, mid), disk, images, maxValues, shared);
    assert first.images == images[mid := once] && first.maxValues == maxValues[mid := maxValues[src]];
    FlipHInvolutive(images[src]);
  }

  /** A vertical flip applied to its own result gives back the source's pixels and maximum value. */
  lemma {:induction false} FlipVTwiceRestores(disk: Disk, images: map<string, Rows>, maxValues: map<string, int>,
                                              shared: set<string>, again: set<string>,
                                              src: string, mid: string, dst: string)
    requires Consistent(images, maxValues) && src in images && images[src] != []
    ensures var first := Apply(FlipVertical(src, mid), disk, images, maxValues, shared);
      first.outcome == Done &&
      var second := Apply(FlipVertical(mid, dst), disk, first.images, first.maxValues, again);
      second.outcome == Done && second.images[dst] == images[src] && second.maxValues[dst] == maxValues[src]
  {
    var once := FlipV(images[src]);
    var first := Apply(FlipVertical(src, mid), disk, images, maxValues, shared);
    assert first.images == images[mid := once] && first.maxValues == maxValues[mid := maxValues[src]];
    FlipVInvolutive(images[src]);
  }

  /**
    A component of a component: the second command's target holds the
    first component's pixels, whatever the second component is, since
    both commands change the grid they share.
   */
  lemma {:induction false} ComponentOfComponent(first: Grayscale, second: Grayscale, disk: Disk,
                                                images: map<string, Rows>, maxValues: map<string, int>,
                                                shared: set<string>, again: set<string>,
                                                src: string, mid: string, dst: string)
    requires Consistent(images, maxValues) && src in images
    ensures var one := Apply(Component(first, src, mid), disk, images, maxValues, shared);
      one.outcome == Done &&
      var two := Apply(Component(second, mid, dst), disk, one.images, one.maxValues, again);
      two.outcome == Done && two.images[dst] == GrayRows(first, images[src])
  {
    GrayRowsAbsorbs(first, second, images[src]);
  }

  /**
    grayscale and brighten change the source grid in place: every name that
    shares it, the source included, ends with the target's pixels.
   */
  lemma {:induction false} RetouchChangesShared(cmd: Command, disk: Disk, images: map<string, Rows>,
                                                maxValues: map<string, int>, shared: set<string>, n: string)
    requires Consistent(images, maxValues) && (cmd.Component? || cmd.Brighten?)
    requires cmd.Brighten? ==> IsInt32(cmd.increment)
    requires cmd.src in images && n in images && n in shared
    ensures var e := Apply(cmd, disk, images, maxValues, shared);
      e.outcome == Done && e.images[n] == e.images[cmd.dst] &&
      e.images[n] == (if cmd.Component? then GrayRows(cmd.kind, images[cmd.src])
                      else BrightenRowsAsWritten(images[cmd.src], cmd.increment))
  {
  }

  /** brighten by 0 copies the source's pixels to the target. */
  lemma {:induction false} BrightenByZero(raw: string, disk: Disk, images: map<string, Rows>,
                                          maxValues: map<string, int>, shared: set<string>, src: string, dst: string)
    requires Consistent(images, maxValues) && src in images
    ensures var e := Apply(Brighten(0, raw, src, dst), disk, images, maxValues, shared);
      e.outcome == Done && e.images[dst] == images[src] && e.maxValues[dst] == maxValues[src]
  {
    BrightenRowsAgree(images[src], 0);
    BrightenZero(images[src]);
  }

  /**
    What a command does to the store's name-to-grid map: a component or
    brighten that succeeds registers the source's own grid under the target,
    a load or flip that succeeds puts a new grid under its target, and
    everything else leaves the map as it was.
   */
  predicate Registered(cmd: Command, outcome: Outcome, a: map<string, Grid>, b: map<string, Grid>)
  {
    if outcome != Done || !CallsModel(cmd) || cmd.SavePng? || cmd.SavePpm? then b == a
    else if cmd.Component? || cmd.Brighten? then cmd.src in a && b == a[cmd.dst := a[cmd.src]]
    else
      var target := if cmd.Load? then cmd.name else cmd.dst;
      target in b && b == a[target := b[target]] && b[target] !in a.Values
  }

  /**
    After a component or brighten, the target joins the names that share
    the source's grid, so a later in-place change to either is seen
    through both.
   */
  lemma RegisteredShares(cmd: Command, a: map<string, Grid>, b: map<string, Grid>)
    requires (cmd.Component? || cmd.Brighten?) && Registered(cmd, Done, a, b)
    ensures SharedWith(b, cmd.src) == SharedWith(a, cmd.src) + {cmd.dst}
    ensures SharedWith(b, cmd.dst) == SharedWith(b, cmd.src)
  {
  }

  /** After a load or flip, no other name shares the target's new grid. */
  lemma FreshUnshared(cmd: Command, a: map<string, Grid>, b: map<string, Grid>)
    requires (cmd.Load? || cmd.FlipHorizontal? || cmd.FlipVertical?) && Registered(cmd, Done, a, b)
    ensures var target := if cmd.Load? then cmd.name else cmd.dst;
      SharedWith(b, target) == {target}
  {
  }

  /** How the editor stops. */
  datatype Exit =
    | Quitting
    | OutOfInput
      /** an exception from a malformed PPM file leaves startEditor */
    | Aborted
      /** the turn bound ran out (a script can read itself forever) */
    | OutOfFuel

  /** The messages of one turn: the prompt, then at most one reply. */
  predicate IsBlock(block: seq<string>)
  {
    1 <= |block| <= 2 && block[0] == Prompt
  }

  /** The block of the turn that stops the editor. */
  function Closing(exit: Exit): seq<string>
  {
    match exit
    case Quitting => [Prompt, "Quitting."]
    case OutOfInput => [Prompt, NoMoreInputs]
    case Aborted => [Prompt]
    case OutOfFuel => []
  }

  /** The editor between two turns, as values: the lines left to read, the files, and the store. */
  datatype Snapshot = Snapshot(source: seq<string>, disk: Disk, images: map<string, Rows>,
                               maxValues: map<string, int>, refs: map<string, Grid>)

  /**
    The command of a turn from a to b did what Apply says: the first line of
    a's source, split and parsed, takes a's files and store to b's with the
    given outcome.
   */
  predicate Applied(a: Snapshot, outcome: Outcome, b: Snapshot)
  {
    Consistent(a.images, a.maxValues) &&
    (a.source != [] ==>
       var cmd := Parse(Split(a.source[0]));
       Apply(cmd, a.disk, a.images, a.maxValues, SharedWith(a.refs, Source(cmd))) ==
       Effect(outcome, b.images, b.maxValues, b.disk) &&
       Registered(cmd, outcome, a.refs, b.refs))
  }

  /**
    The rest of a turn from a to b: the next source is NextSource's, the
    turn writes the prompt and the outcome's message, and it stops on an
    empty source, on "q" and on a malformed file, and on nothing else.
   */
  predicate Turned(a: Snapshot, outcome: Outcome, b: Snapshot, stop: Option<Exit>, block: seq<string>)
  {
    if a.source == [] then
      stop == Some(OutOfInput) && block == [Prompt, NoMoreInputs] &&
      b.disk == a.disk && b.images == a.images && b.maxValues == a.maxValues && b.refs == a.refs
    else
      var cmd := Parse(Split(a.source[0]));
      b.source == NextSource(cmd, a.disk, a.source[1..]) &&
      if outcome == Malformed then stop == Some(Aborted) && block == [Prompt]
      else stop == (if cmd == Quit then Some(Quitting) else None) && block == [Prompt] + Report(cmd, outcome)
  }

  /**
    A run of turns: turn i takes states[i] to states[i + 1] with
    outcomes[i] and writes turns[i]; every turn but the last went on, and
    the last one stopped with exit, unless the run ended for want of fuel.
   */
  predicate Run(states: seq<Snapshot>, outcomes: seq<Outcome>, turns: seq<seq<string>>, exit: Exit)
  {
    |states| == |turns| + 1 && |outcomes| == |turns| && (exit != OutOfFuel ==> |turns| >= 1) &&
    (forall i | 0 <= i < |turns| - 1 :: Turned(states[i], outcomes[i], states[i + 1], None, turns[i])) &&
    (|turns| >= 1 ==>
       Turned(states[|turns| - 1], outcomes[|turns| - 1], states[|turns|],
              if exit == OutOfFuel then None else Some(exit), turns[|turns| - 1]))
  }

  /** Every command of a run did what Apply says, each on the store the previous one left. */
  predicate Acted(states: seq<Snapshot>, outcomes: seq<Outcome>)
  {
    |states| == |outcomes| + 1 && forall i | 0 <= i < |outcomes| :: Applied(states[i], outcomes[i], states[i + 1])
  }

  /** A run that has not stopped grows by the turn taken from its last state. */
  lemma RunExtends(states: seq<Snapshot>, outcomes: seq<Outcome>, turns: seq<seq<string>>,
                   next: Snapshot, outcome: Outcome, stop: Option<Exit>, block: seq<string>)
    requires Run(states, outcomes, turns, OutOfFuel)
    requires Turned(states[|turns|], outcome, next, stop, block)
    ensures Run(states + [next], outcomes + [outcome], turns + [block], if stop.Some? then stop.value else OutOfFuel)
  {
    var states', outcomes', turns' := states + [next], outcomes + [outcome], turns + [block];
    forall i | 0 <= i < |turns|
      ensures Turned(states'[i], outcomes'[i], states'[i + 1], None, turns'[i])
    {
      TurnAt(states, outcomes, turns, i);
      assert states'[i] == states[i] && states'[i + 1] == states[i + 1];
      assert outcomes'[i] == outcomes[i] && turns'[i] == turns[i];
    }
  }

  /** In a run that ran out of fuel, every turn went on. */
  lemma TurnAt(states: seq<Snapshot>, outcomes: seq<Outcome>, turns: seq<seq<string>>, i: int)
    requires Run(states, outcomes, turns, OutOfFuel) && 0 <= i < |turns|
    ensures Turned(states[i], outcomes[i], states[i + 1], None, turns[i])
  {
    if i == |turns| - 1 {
      assert Turned(states[i], outcomes[i], states[i + 1], if OutOfFuel == OutOfFuel then None else Some(OutOfFuel), turns[i]);
    }
  }

  /** The commands of a run, and one more on the store the last one left, all did what Apply says. */
  lemma ActedExtends(states: seq<Snapshot>, outcomes: seq<Outcome>, next: Snapshot, outcome: Outcome)
    requires Acted(states, outcomes) && Applied(states[|outcomes|], outcome, next)
    ensures Acted(states + [next], outcomes + [outcome])
  {
    var states', outcomes' := states + [next], outcomes + [outcome];
    forall i | 0 <= i < |outcomes'|
      ensures Applied(states'[i], outcomes'[i], states'[i + 1])
    {
      if i < |outcomes| {
        assert states'[i] == states[i] && states'[i + 1] == states[i + 1] && outcomes'[i] == outcomes[i];
      }
    }
  }

  /**
    How a turn stops: on an empty source, on "q", on a file that is not a
    plain PPM; its block says which.
   */
  lemma TurnedStops(a: Snapshot, outcome: Outcome, b: Snapshot, stop: Option<Exit>, block: seq<string>)
    requires Turned(a, outcome, b, stop, block) && Applied(a, outcome, b)
    ensures IsBlock(block) && (stop.Some? ==> stop.value != OutOfFuel && block == Closing(stop.value))
    ensures stop == Some(OutOfInput) <==> a.source == []
    ensures stop == Some(Quitting) <==> a.source != [] && Parse(Split(a.source[0])) == Quit
    ensures stop == Some(Aborted) <==> a.source != [] && Parse(Split(a.source[0])).Load? &&
                                       LoadOutcome(a.disk, Parse(Split(a.source[0])).path) == Malformed
  {
  }

  /** A turn that goes on read a line that is not "q", and wrote the prompt and at most one message. */
  lemma WentOn(a: Snapshot, outcome: Outcome, b: Snapshot, block: seq<string>)
    requires Turned(a, outcome, b, None, block)
    ensures IsBlock(block) && a.source != [] && Parse(Split(a.source[0])) != Quit
    ensures b.source == NextSource(Parse(Split(a.source[0])), a.disk, a.source[1..])
  {
  }

  /** A turn that stops writes the closing block of its exit; "q" and an empty source say so. */
  lemma Ended(a: Snapshot, outcome: Outcome, b: Snapshot, exit: Exit, block: seq<string>)
    requires Turned(a, outcome, b, Some(exit), block)
    ensures exit != OutOfFuel && IsBlock(block) && block == Closing(exit)
    ensures exit == Quitting ==> a.source != [] && Parse(Split(a.source[0])) == Quit
    ensures exit == OutOfInput ==> a.source == []
  {
  }

  /**
    A run reads its lines in order: each turn that goes on reads the first
    line of its source, which is not "q", and leaves the rest (or the lines
    of the script it opens) to the next turn. The last turn's line says why
    the editor stopped.
   */
  lemma {:induction false} RunReadsLines(states: seq<Snapshot>, outcomes: seq<Outcome>, turns: seq<seq<string>>, exit: Exit)
    requires Run(states, outcomes, turns, exit)
    ensures forall i | 0 <= i < |turns| :: IsBlock(turns[i])
    ensures forall i | 0 <= i < |turns| - 1 ::
      states[i].source != [] && Parse(Split(states[i].source[0])) != Quit &&
      states[i + 1].source == NextSource(Parse(Split(states[i].source[0])), states[i].disk, states[i].source[1..])
    ensures exit != OutOfFuel ==> |turns| >= 1 && turns[|turns| - 1] == Closing(exit)
    ensures exit == Quitting ==> states[|turns| - 1].source != [] && Parse(Split(states[|turns| - 1].source[0])) == Quit
    ensures exit == OutOfInput ==> states[|turns| - 1].source == []
  {
    var n := |turns| - 1;
    forall i | 0 <= i < |turns| - 1
      ensures states[i].source != [] && Parse(Split(states[i].source[0])) != Quit &&
        states[i + 1].source == NextSource(Parse(Split(states[i].source[0])), states[i].disk, states[i].source[1..])
    {
      WentOn(states[i], outcomes[i], states[i + 1], turns[i]);
    }
    forall i | 0 <= i < |turns|
      ensures IsBlock(turns[i])
    {
      if i < n || exit == OutOfFuel {
        WentOn(states[i], outcomes[i], states[i + 1], turns[i]);
      } else {
        Ended(states[i], outcomes[i], states[i + 1], exit, turns[i]);
      }
    }
    if exit != OutOfFuel {
      Ended(states[n], outcomes[n], states[n + 1], exit, turns[n]);
    }
  }

  /** On an empty source the editor stops at once, having said "No more inputs in file.". */
  lemma RunOnEmpty(states: seq<Snapshot>, outcomes: seq<Outcome>, turns: seq<seq<string>>, exit: Exit)
    requires Run(states, outcomes, turns, exit) && states[0].source == [] && |turns| >= 1
    ensures exit == OutOfInput && turns == [Closing(OutOfInput)]
  {
    RunReadsLines(states, outcomes, turns, exit);
    assert turns == [turns[0]];
  }

  /** The output device: every message written, in order. */
  class View {
    var messages: seq<string>

    constructor ()
      ensures messages == []
    {
      messages := [];
    }

    method WriteMessage(message: string)
      modifies this
      ensures messages == old(messages) + [message]
    {
      messages := messages + [message];
    }
  }

  /** The user's input, as text. */
  class Readable {
    const text: string

    constructor (text: string)
      ensures this.text == text
    {
      this.text := text;
    }
  }

  class ImageUtilController {
    const model: ImageStore
    const view: View
    const readable: Readable

    constructor (model: ImageStore, view: View, readable: Readable)
      ensures this.model == model && this.view == view && this.readable == readable
    {
      this.model := model;
      this.view := view;
      this.readable := readable;
    }

    /** The constructor's check: no controller without a model, a view and an input. */
    static method Create(model: ImageStore?, view: View?, readable: Readable?)
      returns (controller: ImageUtilController?, error: Option<string>)
      ensures controller == null <==> model == null || view == null || readable == null
      ensures controller == null ==> error == Some("The model, view, nor the readable can be null.")
      ensures controller != null ==>
        error == None && fresh(controller) &&
        controller.model == model && controller.view == view && controller.readable == readable
    {
      if model == null || view == null || readable == null {
        return null, Some("The model, view, nor the readable can be null.");
      }
      controller := new ImageUtilController(model, view, readable);
      error := None;
    }

    /** load: the store reads a PPM file into a fresh image. */
    method ExecuteLoad(cmd: Command, disk: Disk) returns (outcome: Outcome)
      requires model.Valid() && cmd.Load?
      modifies model
      ensures model.Valid()
      ensures var e := Apply(cmd, disk, old(model.Images()), old(model.maxValues),
                             SharedWith(old(model.imageReferences), Source(cmd)));
        outcome == e.outcome && disk == e.disk && model.Images() == e.images && model.maxValues == e.maxValues
      ensures outcome == Done ==>
        cmd.name in model.imageReferences && fresh(model.imageReferences[cmd.name]) &&
        model.imageReferences == old(model.imageReferences)[cmd.name := model.imageReferences[cmd.name]]
      ensures outcome != Done ==> model.imageReferences == old(model.imageReferences)
    {
      outcome := model.LoadImage(disk, cmd.path, cmd.name);
    }

    /** save-png and save-ppm: the store writes an image; the store itself is left as it was. */
    method ExecuteSave(cmd: Command, disk: Disk) returns (outcome: Outcome, written: Disk)
      requires model.Valid() && (cmd.SavePng? || cmd.SavePpm?)
      ensures var e := Apply(cmd, disk, model.Images(), model.maxValues,
                             SharedWith(model.imageReferences, Source(cmd)));
        outcome == e.outcome && written == e.disk
    {
      if cmd.SavePng? {
        outcome, written := model.SavePNGImage(disk, cmd.path, cmd.name);
      } else {
        outcome, written := model.SavePPMImage(disk, cmd.path, cmd.name);
      }
    }

    /** The grayscale components and brighten: both change the source grid in place and register it under dst. */
    method ExecuteRetouch(cmd: Command, disk: Disk) returns (outcome: Outcome)
      requires model.Valid() && (cmd.Component? || cmd.Brighten?)
      requires cmd.Brighten? ==> IsInt32(cmd.increment)
      modifies model, model.imageReferences.Values
      ensures model.Valid()
      ensures forall g | g in model.imageReferences.Values :: g in old(model.imageReferences.Values)
      ensures var e := Apply(cmd, disk, old(model.Images()), old(model.maxValues),
                             SharedWith(old(model.imageReferences), Source(cmd)));
        outcome == e.outcome && model.Images() == e.images && model.maxValues == e.maxValues
      ensures outcome == Done ==>
        model.imageReferences == old(model.imageReferences)[cmd.dst := old(model.imageReferences[cmd.src])]
      ensures outcome != Done ==> unchanged(model) && (forall g | g in old(model.imageReferences.Values) :: unchanged(g))
    {
      if cmd.Component? {
        outcome := model.Grayscale(cmd.kind, cmd.src, cmd.dst);
      } else {
        outcome := model.Brighten(cmd.increment, cmd.src, cmd.dst);
      }
    }

    /** The flips: a fresh grid under dst, every existing grid left as it was. */
    method ExecuteFlip(cmd: Command, disk: Disk) returns (outcome: Outcome)
      requires model.Valid() && (cmd.FlipHorizontal? || cmd.FlipVertical?)
      modifies model
      ensures model.Valid()
      ensures var e := Apply(cmd, disk, old(model.Images()), old(model.maxValues),
                             SharedWith(old(model.imageReferences), Source(cmd)));
        outcome == e.outcome && model.Images() == e.images && model.maxValues == e.maxValues
      ensures outcome == Done ==>
        cmd.dst in model.imageReferences && fresh(model.imageReferences[cmd.dst]) &&
        model.imageReferences == old(model.imageReferences)[cmd.dst := model.imageReferences[cmd.dst]]
      ensures outcome != Done ==> unchanged(model)
    {
      if cmd.FlipHorizontal? {
        outcome := model.FlipHorizontal(cmd.src, cmd.dst);
      } else {
        outcome := model.FlipVertical(cmd.src, cmd.dst);
      }
    }

    /** load, save-png and save-ppm: the store's file operations. */
    method ExecuteFile(cmd: Command, disk: Disk) returns (outcome: Outcome, written: Disk)
      requires model.Valid() && (cmd.Load? || cmd.SavePng? || cmd.SavePpm?)
      modifies model
      ensures model.Valid()
      ensures forall g | g in model.imageReferences.Values :: g in old(model.imageReferences.Values) || fresh(g)
      ensures var e := Apply(cmd, disk, old(model.Images()), old(model.maxValues),
                             SharedWith(old(model.imageReferences), Source(cmd)));
        outcome == e.outcome && written == e.disk && model.Images() == e.images && model.maxValues == e.maxValues
      ensures Registered(cmd, outcome, old(model.imageReferences), model.imageReferences)
      ensures !cmd.Load? ==> unchanged(model)
    {
      written := disk;
      if cmd.Load? {
        outcome := ExecuteLoad(cmd, disk);
      } else {
        outcome, written := ExecuteSave(cmd, disk);
      }
    }

    /** The grayscale components, the flips and brighten. */
    method ExecuteTransform(cmd: Command, disk: Disk) returns (outcome: Outcome)
      requires model.Valid()
      requires cmd.Component? || cmd.FlipHorizontal? || cmd.FlipVertical? || cmd.Brighten?
      requires cmd.Brighten? ==> IsInt32(cmd.increment)
      modifies model, model.imageReferences.Values
      ensures model.Valid()
      ensures forall g | g in model.imageReferences.Values :: g in old(model.imageReferences.Values) || fresh(g)
      ensures var e := Apply(cmd, disk, old(model.Images()), old(model.maxValues),
                             SharedWith(old(model.imageReferences), Source(cmd)));
        outcome == e.outcome && disk == e.disk && model.Images() == e.images && model.maxValues == e.maxValues
      ensures Registered(cmd, outcome, old(model.imageReferences), model.imageReferences)
      ensures outcome != Done ==> unchanged(model) && (forall g | g in old(model.imageReferences.Values) :: unchanged(g))
    {
      if cmd.Component? || cmd.Brighten? {
        outcome := ExecuteRetouch(cmd, disk);
      } else {
        outcome := ExecuteFlip(cmd, disk);
      }
    }

    /** read-script, q and the lines that make no call: the store is left as it was. */
    method ExecuteOther(cmd: Command, disk: Disk, source: seq<string>) returns (outcome: Outcome, next: seq<string>)
      requires model.Valid() && !CallsModel(cmd)
      ensures var e := Apply(cmd, disk, model.Images(), model.maxValues,
                             SharedWith(model.imageReferences, Source(cmd)));
        outcome == e.outcome && disk == e.disk && e.images == model.Images() && e.maxValues == model.maxValues
      ensures next == NextSource(cmd, disk, source)
    {
      outcome, next := Done, source;
      if cmd.ReadScript? {
        if cmd.path in disk.files {
          next := Lines(disk.files[cmd.path]);
        } else {
          outcome := Missing;
        }
      }
    }

    /**
      The call a command makes: the store operation for image commands, the
      switch of line source for read-script, nothing for the others. What it
      leaves is Apply on the store's pixels, with the grids it changes in
      place shared as before.
     */
    method Execute(cmd: Command, disk: Disk, source: seq<string>)
      returns (outcome: Outcome, written: Disk, next: seq<string>)
      requires model.Valid()
      requires cmd.Brighten? ==> IsInt32(cmd.increment)
      modifies model, model.imageReferences.Values
      ensures model.Valid()
      ensures forall g | g in model.imageReferences.Values :: g in old(model.imageReferences.Values) || fresh(g)
      ensures var e := Apply(cmd, disk, old(model.Images()), old(model.maxValues),
                             SharedWith(old(model.imageReferences), Source(cmd)));
        outcome == e.outcome && written == e.disk && model.Images() == e.images && model.maxValues == e.maxValues
      ensures next == NextSource(cmd, disk, source)
      ensures Registered(cmd, outcome, old(model.imageReferences), model.imageReferences)
      ensures !CallsModel(cmd) || (!cmd.Load? && outcome != Done) ==>
        unchanged(model) && (forall g | g in old(model.imageReferences.Values) :: unchanged(g))
    {
      if !CallsModel(cmd) {
        written := disk;
        outcome, next := ExecuteOther(cmd, disk, source);
      } else if cmd.Load? || cmd.SavePng? || cmd.SavePpm? {
        next := source;
        outcome, written := ExecuteFile(cmd, disk);
      } else {
        written, next := disk, source;
        outcome := ExecuteTransform(cmd, disk);
      }
    }

    /** The message for a command's outcome, when it has one. */
    method WriteReport(cmd: Command, outcome: Outcome)
      modifies view
      ensures view.messages == old(view.messages) + Report(cmd, outcome)
    {
      var report := Report(cmd, outcome);
      if report != [] {
        view.WriteMessage(report[0]);
      }
    }

    /**
      What a turn does with the command its line makes: the call, then the
      message for its outcome, unless an exception leaves the editor.
     */
    method Step(cmd: Command, disk: Disk, rest: seq<string>)
      returns (stop: Option<Exit>, next: seq<string>, written: Disk, outcome: Outcome)
      requires model.Valid()
      requires cmd.Brighten? ==> IsInt32(cmd.increment)
      modifies model, model.imageReferences.Values, view
      ensures model.Valid()
      ensures forall g | g in model.imageReferences.Values :: g in old(model.imageReferences.Values) || fresh(g)
      ensures var e := Apply(cmd, disk, old(model.Images()), old(model.maxValues),
                             SharedWith(old(model.imageReferences), Source(cmd)));
        outcome == e.outcome && written == e.disk && model.Images() == e.images && model.maxValues == e.maxValues
      ensures Registered(cmd, outcome, old(model.imageReferences), model.imageReferences)
      ensures next == NextSource(cmd, disk, rest)
      ensures outcome == Malformed ==> stop == Some(Aborted) && view.messages == old(view.messages)
      ensures outcome != Malformed ==>
        view.messages == old(view.messages) + Report(cmd, outcome) &&
        stop == (if cmd == Quit then Some(Quitting) else None)
    {
      outcome, written, next := Execute(cmd, disk, rest);
      if outcome == Malformed {
        return Some(Aborted), next, written, outcome;
      }
      ghost var images, maxValues, refs := model.Images(), model.maxValues, model.imageReferences;
      WriteReport(cmd, outcome);
      assert model.Images() == images && model.maxValues == maxValues && model.imageReferences == refs;
      stop := if cmd == Quit then Some(Quitting) else None;
    }

    /**
      One turn of startEditor: the prompt, one line from the current source,
      the command it makes, its effect on the store and the message for its
      outcome; block is what the turn writes.
     */
    method Turn(source: seq<string>, disk: Disk)
      returns (stop: Option<Exit>, next: seq<string>, written: Disk, outcome: Outcome, ghost block: seq<string>)
      requires model.Valid()
      modifies model, model.imageReferences.Values, view
      ensures model.Valid()
      ensures forall g | g in model.imageReferences.Values :: g in old(model.imageReferences.Values) || fresh(g)
      ensures view.messages == old(view.messages) + block
      ensures source == [] ==> unchanged(model)
      ensures var a := Snapshot(source, disk, old(model.Images()), old(model.maxValues), old(model.imageReferences));
        var b := Snapshot(next, written, model.Images(), model.maxValues, model.imageReferences);
        Turned(a, outcome, b, stop, block) && Applied(a, outcome, b)
    {
      ghost var images, maxValues, refs := model.Images(), model.maxValues, model.imageReferences;
      view.WriteMessage(Prompt);
      assert model.Images() == images && model.maxValues == maxValues && model.imageReferences == refs;
      if source == [] {
        view.WriteMessage(NoMoreInputs);
        return Some(OutOfInput), source, disk, Done, [Prompt, NoMoreInputs];
      }
      var cmd := Parse(Split(source[0]));
      stop, next, written, outcome := Step(cmd, disk, source[1..]);
      ghost var reply := if outcome == Malformed then [] else Report(cmd, outcome);
      block := [Prompt] + reply;
      Assoc(old(view.messages), [Prompt], reply);
    }

    /**
      The loop of startEditor: turns until one stops the editor or fuel runs
      out. states[i] is the editor before turn i and states[i + 1] after it,
      so the run reads source line by line, each command acting on the store
      the previous one left; turns[i] is the block of messages turn i writes.
     */
    method RunTurns(source: seq<string>, disk: Disk, fuel: nat)
      returns (exit: Exit, written: Disk, ghost turns: seq<seq<string>>, ghost states: seq<Snapshot>,
               ghost outcomes: seq<Outcome>)
      requires model.Valid()
      modifies model, model.imageReferences.Values, view
      ensures model.Valid()
      ensures view.messages == old(view.messages) + Concat(turns)
      ensures Run(states, outcomes, turns, exit) && Acted(states, outcomes)
      ensures states[0] == Snapshot(source, disk, old(model.Images()), old(model.maxValues), old(model.imageReferences))
      ensures var last := states[|turns|];
        last.disk == written && last.images == model.Images() && last.maxValues == model.maxValues &&
        last.refs == model.imageReferences
      ensures |turns| <= fuel && forall i | 0 <= i < |turns| :: IsBlock(turns[i])
      ensures exit == OutOfFuel ==> |turns| == fuel
      ensures exit != OutOfFuel ==> |turns| >= 1 && turns[|turns| - 1] == Closing(exit)
      ensures fuel > 0 && source == [] ==> exit == OutOfInput && turns == [Closing(OutOfInput)]
    {
      var lines := source;
      written := disk;
      exit, turns, outcomes := OutOfFuel, [], [];
      states := [Snapshot(source, disk, model.Images(), model.maxValues, model.imageReferences)];
      var steps := 0;
      while steps < fuel && exit == OutOfFuel
        invariant |turns| == steps <= fuel
        invariant model.Valid()
        invariant forall g | g in model.imageReferences.Values :: g in old(model.imageReferences.Values) || fresh(g)
        invariant view.messages == old(view.messages) + Concat(turns)
        invariant Run(states, outcomes, turns, exit) && Acted(states, outcomes)
        invariant states[0] == Snapshot(source, disk, old(model.Images()), old(model.maxValues), old(model.imageReferences))
        invariant states[|turns|] == Snapshot(lines, written, model.Images(), model.maxValues, model.imageReferences)
        decreases fuel - steps
      {
        var stop, outcome;
        ghost var block;
        stop, lines, written, outcome, block := Turn(lines, written);
        ghost var now := Snapshot(lines, written, model.Images(), model.maxValues, model.imageReferences);
        RunExtends(states, outcomes, turns, now, outcome, stop, block);
        ActedExtends(states, outcomes, now, outcome);
        ConcatSnoc(old(view.messages), turns, block);
        turns, states, outcomes := turns + [block], states + [now], outcomes + [outcome];
        steps := steps + 1;
        if stop.Some? {
          exit := stop.value;
        }
      }
      RunReadsLines(states, outcomes, turns, exit);
      if fuel > 0 && source == [] {
        RunOnEmpty(states, outcomes, turns, exit);
      }
    }

    /** startEditor: the banner, then the turns over the readable's lines. */
    method StartEditor(disk: Disk, fuel: nat)
      returns (exit: Exit, written: Disk, ghost turns: seq<seq<string>>, ghost states: seq<Snapshot>,
               ghost outcomes: seq<Outcome>)
      requires model.Valid()
      modifies model, model.imageReferences.Values, view
      ensures model.Valid()
      ensures view.messages == old(view.messages) + [Banner] + Concat(turns)
      ensures Run(states, outcomes, turns, exit) && Acted(states, outcomes)
      ensures states[0] == Snapshot(Lines(readable.text), disk, old(model.Images()), old(model.maxValues),
                                    old(model.imageReferences))
      ensures var last := states[|turns|];
        last.disk == written && last.images == model.Images() && last.maxValues == model.maxValues &&
        last.refs == model.imageReferences
      ensures |turns| <= fuel && forall i | 0 <= i < |turns| :: IsBlock(turns[i])
      ensures exit == OutOfFuel ==> |turns| == fuel
      ensures exit != OutOfFuel ==> |turns| >= 1 && turns[|turns| - 1] == Closing(exit)
      ensures fuel > 0 && readable.text == [] ==> exit == OutOfInput && turns == [Closing(OutOfInput)]
    {
      var source := Lines(readable.text);
      assert readable.text == [] ==> source == [];
      ghost var images, maxValues, refs := model.Images(), model.maxValues, model.imageReferences;
      view.WriteMessage(Banner);
      assert model.Images() == images && model.maxValues == maxValues && model.imageReferences == refs;
      exit, written, turns, states, outcomes := RunTurns(source, disk, fuel);
    }
  }
}
