# ImageUtil: image store, transforms, PPM codec and command loop

This project models the core of a small raster image editor in Dafny.

The store, `PPMUtilModel`, keeps images under reference names together with
their PPM maximum values. It provides:
- loading and saving of images as plain-text "P3" PPM files;
- writing of PNG files;
- six grayscale components (red, green, blue, value, intensity, luma);
- horizontal and vertical flips;
- brightening, with each channel clamped to 0..255.

The controller, `ImageUtilControllerImpl`, prints a banner. Then on each turn it
writes a prompt, reads one line, splits it on single spaces and runs the command
it names. It writes one message for each result or error.

The `read-script` command switches the line source to a file. The loop ends in
three cases:
- on `q`;
- when the current source has no more lines;
- when an exception from a malformed PPM file leaves it.

Files:

- `wrappers.dfy`: `Option`.
- `pixels.dfy`: pixels, the clamp `rgbCap`, the grayscale levels and the brighten arithmetic. It also holds Java's 32-bit addition for the overflow finding below.
- `grids.dfy`: grids as values. The flips, the grayscale map and the brighten map are defined here as the specifications of the store's methods, with lemmas about them.
- `ppm_text.dfy`: the PPM text.
  - Lines as `Scanner.nextLine` yields them, comment removal, and whitespace tokens.
  - `String.format("%d")` and `Integer.parseInt`.
  - The text `savePPMImage` writes (`Encode`) and what `readPPM` makes of a text (`Decode`).
  - The round trip between the two.
- `ppm_model.dfy`: the disk, the mutable `Grid`, and the class `ImageStore` with its loops.
  - Grayscale and brighten rewrite the source grid in place and register that same grid under the destination name, so both names share it.
  - The flips build a fresh grid.
- `controller.dfy`: the Java `split(" ")` rule, commands, the message for each outcome, and the view.
  - The class `ImageUtilController` holds the per-turn step and the `startEditor` loop.

## Model

| member | source | states |
|---|---|---|
| Pixels.RgbCap | src/model/PPMUtilModel.java:297-303 | a value in 0..255 is kept, a larger one becomes 255 and a negative one 0 |
| Pixels.ValueLevel | src/model/PPMUtilModel.java:199-207 | the value component is one of the three channels and is no smaller than any of them |
| Pixels.IntensityLevel | src/model/PPMUtilModel.java:208-210 | the intensity is the channel average truncated: 3c <= r+g+b < 3c+3 |
| Pixels.LumaLevel | src/model/PPMUtilModel.java:211-213 | the luma is the weighted sum truncated: 10000c <= 2126r+7152g+722b < 10000c+10000 |
| Pixels.Level | src/model/PPMUtilModel.java:189-216 | red, green and blue take that channel, value takes the largest channel |
| Pixels.GrayPixel | src/model/PPMUtilModel.java:217 | the new pixel has all three channels equal to the chosen level |
| Pixels.ComponentExamples | src/model/PPMUtilModel.java:199-213 | the worked examples: (195,165,230) has intensity 196, luma 176 and value 230 |
| Pixels.BrightenChannel | src/model/PPMUtilModel.java:280-282 | the sum is kept when it is in 0..255; otherwise it is clamped; a non-negative increment never darkens and a non-positive one never brightens |
| Pixels.BrightenChannelAsWritten | src/model/PPMUtilModel.java:280-282 | with Java int addition, the result equals the clamped sum whenever that sum fits an int |
| Pixels.BrightenAsWrittenAgrees | src/model/PPMUtilModel.java:280-282 | the as-written channel equals the corrected one exactly when channel + increment fits an int |
| Pixels.BrightenPixel | src/model/PPMUtilModel.java:280-284 | each channel brightened and clamped; a non-negative increment never darkens a channel and a non-positive one never brightens it |
| Pixels.BrightenPixelAgrees | src/model/PPMUtilModel.java:280-284 | the pixel the source's loop builds equals the clamped pixel exactly when no channel + increment overflows an int |
| Pixels.BrightenOverflowExample | src/model/PPMUtilModel.java:280 | channel 1 brightened by 2147483647 becomes 0 as written and 255 when corrected |
| Pixels.BrightenExamples | src/model/PPMUtilModel.java:280-284 | the worked examples: +50 clamps blue at 255, and -100 subtracts from every channel |
| Grids.FlipH | src/model/PPMUtilModel.java:236-240 | same height and width; pixel (h, w) is the source's (h, width-1-w) |
| Grids.FlipV | src/model/PPMUtilModel.java:256-264 | same height; row h is the source's row height-1-h |
| Grids.GrayRow | src/model/PPMUtilModel.java:184-218 | one row with every pixel replaced by its gray pixel |
| Grids.GrayRows | src/model/PPMUtilModel.java:183-219 | same shape; every pixel is the gray pixel of the source pixel at that place |
| Grids.BrightenRow | src/model/PPMUtilModel.java:279-285 | one row with every pixel brightened |
| Grids.BrightenRows | src/model/PPMUtilModel.java:278-286 | same shape; every pixel is the brightened source pixel at that place |
| Grids.BrightenRowAsWritten | src/model/PPMUtilModel.java:279-285 | one row, every pixel built with the source's wrapping additions |
| Grids.BrightenRowsAsWritten | src/model/PPMUtilModel.java:278-286 | same shape; row h is the as-written brightened row h |
| Grids.BrightenRowsAgree | src/model/PPMUtilModel.java:278-286 | the as-written grid equals the clamped map BrightenRows exactly when no channel + increment overflows, which an increment of at most 2147483647 - 255 guarantees |
| Grids.FlipHInvolutive | src/model/PPMUtilModel.java:236-240 | two horizontal flips give the image back |
| Grids.FlipVInvolutive | src/model/PPMUtilModel.java:256-264 | two vertical flips give the image back |
| Grids.FlipVRectangular | src/model/PPMUtilModel.java:256-264 | the vertical flip of a rectangular grid is rectangular and as wide |
| Grids.FlipsCommute | src/model/PPMUtilModel.java:226-267 | flipping horizontally then vertically equals the other order |
| Grids.GrayRowsAbsorbs | src/model/PPMUtilModel.java:183-219 | any component of an already gray image is that image: red, green, blue, value and intensity are idempotent in the source, and so is luma with the model's exact arithmetic (see Left out) |
| Grids.BrightenZero | src/model/PPMUtilModel.java:278-286 | brightening by 0 leaves every pixel unchanged |
| Grids.BrightenMonotone | src/model/PPMUtilModel.java:280-284 | a non-negative increment never darkens a channel and a non-positive one never brightens it |
| PpmText.IntToString | src/model/PPMUtilModel.java:156 | `%d` writes a minus sign exactly for negative numbers, then digits |
| PpmText.ParseInt | src/model/PPMUtilModel.java:89-91 | an accepted token has a value that fits a Java int |
| PpmText.ParseIntToString | src/model/PPMUtilModel.java:156 | what `%d` writes for an int, `nextInt` and `parseInt` read back as the same int |
| PpmText.LinesOfText | src/model/PPMUtilModel.java:72-73 | `nextLine` yields no line exactly for empty text, and no line holds a '\n' |
| PpmText.ContentOfLines | src/model/PPMUtilModel.java:72-77 | the kept text ends a line, and it is empty exactly when every line is a comment |
| PpmText.TokensAreWords | src/model/PPMUtilModel.java:84-108 | every token `next` and `nextInt` read is non-empty and holds no whitespace |
| PpmText.LinesAppend | src/model/PPMUtilModel.java:72-77 | text that ends a line splits into lines independently of what follows |
| PpmText.RowOf | src/model/PPMUtilModel.java:102-108 | a row read from the token stream has exactly width pixels |
| PpmText.GridOf | src/model/PPMUtilModel.java:95-110 | the grid read has height rows, all of the given width |
| PpmText.LinesOfEncode | src/model/PPMUtilModel.java:152-166 | the written text is the lines "P3", "width height max" and one line per row |
| PpmText.ContentOfEncode | src/model/PPMUtilModel.java:72-77 | the written text has no empty line and no comment, so reading keeps all of it |
| PpmText.TokensOfEncode | src/model/PPMUtilModel.java:152-166 | the written text's tokens are "P3", width, height, maximum and the samples row by row |
| PpmText.GridOfTokens | src/model/PPMUtilModel.java:101-109 | reading the samples of a grid back row-major gives the grid |
| PpmText.DecodedImage | src/model/PPMUtilModel.java:72-110 | a decoded image came from text with no empty line, is rectangular, and its height, width and maximum value fit an int; a refused body still has an int maximum |
| PpmText.DecodeEncode | src/model/PPMUtilModel.java:141-173 | reading what savePPMImage writes gives back the same pixels and maximum value, for a non-empty grid of positive width |
| PpmText.DecodeEncodeNoColumns | src/model/PPMUtilModel.java:159-166 | a grid whose rows are empty is written with empty lines, and reading it stops at the first of them |
| PpmModel.LoadOutcome | src/model/PPMUtilModel.java:60-111 | loading succeeds exactly when the file exists and decodes; it is "not found" exactly when the file is absent |
| PpmModel.RecordedMaxFits | src/model/PPMUtilModel.java:89-93 | the maximum recorded from a header fits an int, and after a load that succeeds it is the decoded file's maximum |
| PpmModel.SavedPpmLoads | src/model/PPMUtilModel.java:141-173 | a file written with an image's PPM text loads back as that image and records its maximum value |
| PpmModel.SavedNoColumnsFails | src/model/PPMUtilModel.java:159-166 | a file written for an image with empty rows fails to load on an empty line |
| PpmModel.CreateEmptyImage | src/model/PPMUtilModel.java:311-318 | height empty rows, none for a negative height |
| PpmModel.ReadContent | src/model/PPMUtilModel.java:72-77 | fails exactly when some line is empty; otherwise the non-comment lines, each followed by a separator |
| PpmModel.ReadRow | src/model/PPMUtilModel.java:102-108 | succeeds exactly when the next 3 x width tokens are samples, and then gives those pixels |
| PpmModel.ReadPixels | src/model/PPMUtilModel.java:95-110 | succeeds exactly when the first height x 3 x width tokens are samples, and then gives the grid read row-major |
| PpmModel.AppendRow | src/model/PPMUtilModel.java:160-164 | appends the row's samples, each followed by a space |
| PpmModel.BuildPPM | src/model/PPMUtilModel.java:152-166 | the built text is the PPM encoding of the rows and maximum value |
| PpmModel.GrayscaleRow | src/model/PPMUtilModel.java:184-218 | row h becomes its gray row in place; the other rows are unchanged |
| PpmModel.BrightenRowInPlace | src/model/PPMUtilModel.java:279-285 | row h becomes its as-written brightened row in place, with wrapping int additions; the other rows are unchanged |
| PpmModel.GrayscaleInPlace | src/model/PPMUtilModel.java:183-219 | every row of the grid becomes its gray row in place: the grid ends as the grayscale map of its old pixels |
| PpmModel.BrightenInPlace | src/model/PPMUtilModel.java:278-286 | every row is brightened in place, each pass bounded by the first row's width: the grid ends as the as-written brighten map of its old pixels |
| PpmModel.CopyFlippedH | src/model/PPMUtilModel.java:234-240 | the new grid built pixel by pixel is the horizontal flip of the source |
| PpmModel.CopyFlippedV | src/model/PPMUtilModel.java:254-264 | the new grid built row by row is the vertical flip of the source |
| PpmModel.ImageStore.Images | src/model/PPMUtilModel.java:23-24 | the names with images are the names of the store, and a valid store is consistent: every name has a maximum value and every image is rectangular |
| PpmModel.ImageStore.constructor | src/model/PPMUtilModel.java:30-33 | an empty store |
| PpmModel.ImageStore.GetHeight | src/model/PPMUtilModel.java:36-38 | the number of rows |
| PpmModel.ImageStore.GetWidth | src/model/PPMUtilModel.java:41-43 | the length of the first row, and none exactly when the image has no rows |
| PpmModel.ImageStore.GetMaxValue | src/model/PPMUtilModel.java:46-48 | the recorded maximum value |
| PpmModel.ImageStore.GetImage | src/model/PPMUtilModel.java:51-53 | the very grid the name refers to, or null |
| PpmModel.ImageStore.ReadPPM | src/model/PPMUtilModel.java:60-111 | the outcome of loading the file, the decoded pixels on success, and the maximum value recorded as soon as the header is read |
| PpmModel.ImageStore.LoadImage | src/model/PPMUtilModel.java:114-117 | on success the name refers to a fresh grid of the file's pixels; otherwise the images are unchanged |
| PpmModel.ImageStore.SavePPMImage | src/model/PPMUtilModel.java:141-173 | not loaded, no rows, or write failure leave the disk as it was; otherwise path.ppm holds the encoding |
| PpmModel.ImageStore.SavePNGImage | src/model/PPMUtilModel.java:120-138 | not loaded, no rows, zero width, or write failure leave the disk as it was; otherwise path.png holds the image's pixels |
| PpmModel.ImageStore.Grayscale | src/model/PPMUtilModel.java:177-222 | the source grid's pixels become gray in place, the destination name refers to that same grid, and it takes the source's maximum value |
| PpmModel.ImageStore.Register | src/model/PPMUtilModel.java:241-242 | the two puts: the grid and the maximum value under the new name, every other name's pixels unchanged |
| PpmModel.ImageStore.FlipHorizontal | src/model/PPMUtilModel.java:226-243 | a fresh grid equal to the horizontal flip under the destination name; "no rows" for an empty image |
| PpmModel.ImageStore.FlipVertical | src/model/PPMUtilModel.java:246-267 | a fresh grid equal to the vertical flip under the destination name; "no rows" for an empty image |
| PpmModel.ImageStore.Brighten | src/model/PPMUtilModel.java:270-289 | the source grid is brightened in place with wrapping int additions, and equals the clamped map when nothing overflows; every name sharing it sees the new pixels, and the destination name refers to that same grid with the source's maximum value |
| Controller.SplitWords | src/controller/ImageUtilControllerImpl.java:55 | no token of `split(" ")` holds a space, and trailing empty tokens are dropped from a line that has a space |
| Controller.PiecesHaveNoSpace | src/controller/ImageUtilControllerImpl.java:55 | no piece cut at the spaces holds a space |
| Controller.JoinPieces | src/controller/ImageUtilControllerImpl.java:55 | cutting a line at its spaces and joining the pieces with spaces gives the line back, and no piece holds a space |
| Controller.SplitJoin | src/controller/ImageUtilControllerImpl.java:55 | space-free words whose last word is not empty come back from the line they make |
| Controller.SpacesOnly | src/controller/ImageUtilControllerImpl.java:55 | a line of only spaces splits into no tokens |
| Controller.SpacesOnlyBlank | src/controller/ImageUtilControllerImpl.java:611-613 | such a line has no command name, and its turn writes no message |
| Controller.EmptyLineInvalid | src/controller/ImageUtilControllerImpl.java:603-609 | an empty line is one empty token, which is invalid input |
| Controller.Parse | src/controller/ImageUtilControllerImpl.java:523-526 | a brighten command carries the int that its raw token parses to |
| Controller.NotEnoughExactly | src/controller/ImageUtilControllerImpl.java:141-594 | a line is "not enough inputs" exactly when an argument its command indexes is missing, brighten's names counting only after a valid increment |
| Controller.BrightenIncrementFirst | src/controller/ImageUtilControllerImpl.java:523-532 | with an increment token present, brighten reports "not a number" exactly when the token does not parse, whether or not the names are there |
| Controller.QuitExactly | src/controller/ImageUtilControllerImpl.java:595-602 | only the first token "q" quits |
| Controller.InvalidExactly | src/controller/ImageUtilControllerImpl.java:603-609 | a first token is invalid input exactly when it names none of the fourteen commands |
| Controller.Report | src/controller/ImageUtilControllerImpl.java:141-609 | every turn writes at most one message after the prompt |
| Controller.NotLoadedMessage | src/controller/ImageUtilControllerImpl.java:186-190 | every save and transform of an unknown name writes "That image hasn't been loaded yet." |
| Controller.ConcatSnoc | src/controller/ImageUtilControllerImpl.java:132-140 | the messages of the turns so far, then one more block, are the messages of the longer run |
| Controller.LoadEffect | src/model/PPMUtilModel.java:60-117 | load keeps the store consistent and writes no file |
| Controller.SavePngEffect | src/controller/ImageUtilControllerImpl.java:169-209 | save-png leaves the store as it is, and succeeds exactly when the name is loaded, has rows and columns, and the path is writable |
| Controller.SavePpmEffect | src/controller/ImageUtilControllerImpl.java:210-250 | save-ppm leaves the store as it is, and succeeds exactly when the name is loaded, has rows, and the path is writable |
| Controller.ComponentEffect | src/controller/ImageUtilControllerImpl.java:251-454 | a component keeps the store consistent; it fails only with "not loaded", and then changes nothing |
| Controller.BrightenEffect | src/controller/ImageUtilControllerImpl.java:523-563 | brighten keeps the store consistent; it fails only with "not loaded", and then changes nothing |
| Controller.FlipHEffect | src/controller/ImageUtilControllerImpl.java:455-488 | horizontal-flip keeps the store consistent, and a failure changes nothing |
| Controller.FlipVEffect | src/controller/ImageUtilControllerImpl.java:489-522 | vertical-flip keeps the store consistent, and a failure changes nothing |
| Controller.Apply | src/controller/ImageUtilControllerImpl.java:141-594 | every command keeps the store consistent; only load can meet a malformed file; only the saves write files; commands that make no call, and failed calls other than load, leave the images and maximum values as they were |
| Controller.UnknownSource | src/controller/ImageUtilControllerImpl.java:186-190 | a save or transform fails with "not loaded" exactly when its source is unknown, and then it changes nothing and writes the not-loaded message |
| Controller.SaveThenLoad | src/controller/ImageUtilControllerImpl.java:142-250 | save-ppm of a non-empty image with columns, then load of the written file, puts the saved pixels and maximum value under the new name |
| Controller.SaveLoadLines | src/controller/ImageUtilControllerImpl.java:55 | the lines "save-ppm p n" and "load p.ppm d" parse to those commands when the words hold no space |
| Controller.FlipHTwiceRestores | src/controller/ImageUtilControllerImpl.java:455-488 | two horizontal-flip commands give back the source's pixels and maximum value |
| Controller.FlipVTwiceRestores | src/controller/ImageUtilControllerImpl.java:489-522 | two vertical-flip commands give back the source's pixels and maximum value |
| Controller.ComponentOfComponent | src/controller/ImageUtilControllerImpl.java:251-454 | a component of a component holds the first component's pixels when the second is red, green, blue, value or intensity, and also when it is luma with the model's exact arithmetic (see Left out) |
| Controller.RegisteredShares | src/model/PPMUtilModel.java:177-289 | after a component or brighten the names sharing the source's grid are the ones before plus the target, and the target shares exactly what the source shares |
| Controller.FreshUnshared | src/model/PPMUtilModel.java:93-267 | after a load or flip no other name shares the target's grid |
| Controller.RetouchChangesShared | src/model/PPMUtilModel.java:177-289 | after a component or brighten every name sharing the source's grid holds the target's new pixels |
| Controller.BrightenByZero | src/controller/ImageUtilControllerImpl.java:523-563 | brighten by 0 copies the source's pixels and maximum value to the target |
| Controller.ImageUtilController.Create | src/controller/ImageUtilControllerImpl.java:35-43 | there is no controller exactly when an argument is null, and then the error message is given |
| Controller.ImageUtilController.ExecuteLoad | src/controller/ImageUtilControllerImpl.java:142-168 | the store after load is Apply's; on success the name refers to a fresh grid, otherwise the references are as they were |
| Controller.ImageUtilController.ExecuteSave | src/controller/ImageUtilControllerImpl.java:169-250 | the outcome and the disk written are Apply's for the save |
| Controller.ImageUtilController.ExecuteRetouch | src/controller/ImageUtilControllerImpl.java:251-454 | the store after a component or brighten is Apply's, and the target name refers to the source's own grid; a failure changes nothing |
| Controller.ImageUtilController.ExecuteFlip | src/controller/ImageUtilControllerImpl.java:455-522 | the store after a flip is Apply's, with a fresh grid under the target; a failure changes nothing |
| Controller.ImageUtilController.ExecuteFile | src/controller/ImageUtilControllerImpl.java:142-250 | the file commands end in Apply's store and disk; a load that succeeds puts a new grid, shared with no other name, under the name, and the saves change nothing in the store |
| Controller.ImageUtilController.ExecuteTransform | src/controller/ImageUtilControllerImpl.java:251-563 | the transforms end in Apply's store; a component or brighten registers the source's own grid under the target, a flip a new grid, and a failure changes no grid and no name |
| Controller.ImageUtilController.ExecuteOther | src/controller/ImageUtilControllerImpl.java:564-613 | read-script switches the line source to the file's lines when it exists and fails with "Filepath doesn't exist!" otherwise; the other commands make no call |
| Controller.ImageUtilController.Execute | src/controller/ImageUtilControllerImpl.java:141-613 | outcome, disk and store are Apply's for every command; the next line source is the script's lines after a read-script of an existing file and the rest of the current source otherwise; the name-to-grid map changes as Registered says (the target shares the source's grid after a component or brighten, holds a new grid after a load or flip, and nothing else changes it); commands that make no call and failed calls other than load change no grid |
| Controller.ImageUtilController.WriteReport | src/controller/ImageUtilControllerImpl.java:141-613 | the view gains exactly the message for the outcome |
| Controller.ImageUtilController.Step | src/controller/ImageUtilControllerImpl.java:141-613 | the store is Apply's; a malformed file aborts with no message; otherwise the outcome's message is written, and "q" stops with Quitting |
| Controller.ImageUtilController.Turn | src/controller/ImageUtilControllerImpl.java:52-66 | the turn from the editor before to the editor after is Turned and Applied: the first line, split and parsed, does what Apply says to the files and the store and changes the name-to-grid map as Registered says; the next source is NextSource's; the view gains the prompt and then "No more inputs in file." and a stop on an empty source, or the outcome's message, a stop on "q" and an abort on a malformed file |
| Controller.ImageUtilController.RunTurns | src/controller/ImageUtilControllerImpl.java:132-614 | the run is a trace of snapshots from the source and the store it starts with to the store it leaves: turn i takes states[i] to states[i + 1] as Turned and Applied say, names included, so a later brighten of a component's target is seen under the component's source, every turn but the last goes on, and the last stops with the exit; the messages are the turns' blocks in order; at most fuel turns, exactly fuel when fuel runs out; an empty source ends at once with "No more inputs in file." |
| Controller.ImageUtilController.StartEditor | src/controller/ImageUtilControllerImpl.java:127-615 | the banner, then the trace of turns over the readable's lines, each command acting on the store and the name-to-grid map the previous one left; the last block is "Quitting." after a quit, "No more inputs in file." when input runs out, the bare prompt on an abort; exactly fuel turns when fuel runs out; empty input gives one turn that ends the editor |
| Controller.RunExtends | src/controller/ImageUtilControllerImpl.java:132-140 | a run that has not stopped, followed by one more turn from its last state, is a run that ends with that turn's stop |
| Controller.TurnAt | src/controller/ImageUtilControllerImpl.java:132-140 | in a run that ran out of fuel, every turn, the last included, went on without stopping |
| Controller.ActedExtends | src/controller/ImageUtilControllerImpl.java:141-613 | a run whose commands did what Apply says, followed by one more such command on the store the run left, still has every command doing what Apply says |
| Controller.TurnedStops | src/controller/ImageUtilControllerImpl.java:52-66 | a turn stops with OutOfInput exactly when the source is empty, with Quitting exactly when the line is "q", and with Aborted exactly when the line loads a malformed file; its block is one or two messages starting with the prompt, and the closing block of its exit when it stops |
| Controller.WentOn | src/controller/ImageUtilControllerImpl.java:132-140 | a turn that goes on read a line that is not "q", wrote the prompt and at most one message, and left NextSource's lines to the next turn |
| Controller.Ended | src/controller/ImageUtilControllerImpl.java:132-140 | a turn that stops writes the closing block of its exit; a Quitting exit read "q" and an OutOfInput exit found no line |
| Controller.RunReadsLines | src/controller/ImageUtilControllerImpl.java:132-140 | a run reads its lines in order: each turn before the last read the first line of its source, which was not "q", and the next turn starts from the rest or from the opened script's lines; the last turn's line is "q" after a quit, and there is none after OutOfInput |
| Controller.RunOnEmpty | src/controller/ImageUtilControllerImpl.java:52-66 | a run that starts from no lines is one turn that writes the prompt and "No more inputs in file." and exits with OutOfInput |

## Left out

- The welcome banner: only its first line is modelled; the per-command help lines are plain text.
- Writes to the view never fail. The source's fallback of printing to standard output when a write throws `IOException` is not modelled.
- Standard output diagnostics are not modelled. These are the "plain RAW file should begin with P3" warning and the outer catch's print. They write nothing to the view; the model keeps the fact that the turn writes nothing.
- The `IllegalStateException` catches are not modelled, because nothing in the core throws that exception inside a command. The loop's own catch, for the end of input, is modelled as the `OutOfInput` exit.
- PNG encoding: a written PNG is recorded as the pixel grid written, and alpha is ignored. A PNG path read back as PPM text or as a script is treated as missing.
- File reading and writing use an abstract disk: a map of texts, a map of PNGs and a set of unwritable paths. A script file that exists but cannot be read is not modelled.
- Line endings: the line separator is "\n", and carriage returns are not treated as line ends.
- Scanner.nextInt: locale group separators and non-ASCII digits are not modelled. Only an optional sign and ASCII digits are accepted.
- PpmText.IsSpace: the whitespace that separates tokens is space, tab, line feed, vertical tab, form feed and carriage return. Java's `Character.isWhitespace` also counts U+001C to U+001F and the Unicode space separators; those are not modelled.
- PpmText.Lines: a line ends only at "\n". `Scanner.nextLine` also ends lines at U+0085, U+2028 and U+2029, which are not modelled.
- Controller.Parse: the increment of brighten is read with the same ASCII-only `ParseInt`. `Integer.parseInt` at src/controller/ImageUtilControllerImpl.java:525 also accepts non-ASCII Unicode digits, which are not modelled.
- Grids.GrayRowsAbsorbs: luma of a gray image need not give that image back in the source. Its double-precision sum can land just under the gray level: gray 255 gives 254 in Java, as do 62 of the 256 levels. The lemma holds for the model's exact luma and, in the source too, for red, green, blue, value and intensity.
- Controller.ComponentOfComponent: for the same reason, a second luma component can lower the first component's channels by one in the source (a gray 255 becomes 254). The lemma holds for the model's exact luma and, in the source too, for every other second component.
- Pixels.LumaLevel: luma is the exact truncation of 0.2126 R + 0.7152 G + 0.0722 B, without double-precision rounding. On pixels where the double sum lands just under an integer, the source can be one lower.
- Controller.ImageUtilController.StartEditor: the number of turns is bounded by a fuel parameter. A script that reads itself runs forever in the source, which the `OutOfFuel` exit stands for.
- PpmModel.ImageStore.GetHeight, GetWidth and GetMaxValue require a loaded name. The source throws NullPointerException otherwise, but no caller in the core reaches that.
- PpmModel.ImageStore.Brighten requires the increment to be a Java int, which is the parameter's type in the source.
- Java `Color` objects are values here. The source shares them between a grid and its flipped copy, which cannot be observed since `Color` is immutable.

## Notes on behaviour

- When a script runs out of lines, the loop writes "No more inputs in file." and ends. The editor does not go back to the original input.
- Grayscale and brighten change the source image in place and register that same image under the destination name.
- A malformed PPM file produces no message. Its exception leaves `startEditor`, which is the `Aborted` exit. The maximum value from its header stays recorded when the pixels fail.
- Lines are split on single spaces with Java's `split(" ")`. Tabs and runs of spaces are not merged.
- A line of only spaces writes nothing to the view.
- Brighten adds in 32-bit int arithmetic before clamping, so the store's brighten is the as-written map `Grids.BrightenRowsAsWritten`. `Grids.BrightenRowsAgree` shows it equals the clamped map `Grids.BrightenRows` whenever no sum overflows.

## Findings

| source | as written | input that shows it | evidently intended | confidence | as-written member | corrected member |
|---|---|---|---|---|---|---|
| src/model/PPMUtilModel.java:280-282 | `rgbCap(channel + increment)` adds in 32-bit int arithmetic before clamping | `brighten 2147483647 a b` on a pixel with a channel of 1: the sum wraps to -2147483648 and is clamped to 0 | the channel is clamped to 255, as for any large increment | not executed | Pixels.BrightenChannelAsWritten | Pixels.BrightenChannel |
