# blush, modelled in Dafny

blush is a streaming highlighter. A `Blush` engine reads from a reader made of named sources. It splits the bytes into lines and runs every configured finder over each line. A line with a match comes out with every match wrapped in its finder's colour. A line with no match is dropped, unless `NoCut` is set, in which case it passes through unchanged. With `WithFileName`, each kept line of a named source comes out after the source's name and a separator. A newline is added after the last line of a reader when that line has none. `Read` delivers the output through a carry-over buffer, so a rendered line can be handed out across several calls of any size. `Close` closes the reader, and every later `Read` fails with `ErrClosed`. `WriteTo` drains the engine into a writer: it reports `ErrNoReader` or `ErrNoWriter` before doing anything, returns the count of bytes the writer accepted, and returns the first write error.

The modules:

- `Text` (`text.dfy`): bytes, lines, the error kinds, and splitting a source into lines and joining them back.
- `Colours` (`colour.dfy`): `Colourise`, as an enter marker, the text, and an exit marker. `NoColour` has empty markers.
- `Finders` (`finder.dfy`): the exact finder, `NewExact(text, colour)`. It reports the non-overlapping occurrences of its text, scanning left to right.
- `Highlight` (`highlight.dfy`): how one line is rendered. Scanning left to right, a position where some finder's text occurs starts a match of the first such finder, and the scan resumes after the match. Any other byte is copied.
- `Stream` (`stream.dfy`): the whole output of a list of sources as a function. It covers cutting, pass-through, name headers and the added newline.
- `Composer` (`composer.dfy`): the `MultiReader` of `NewMultiReader(WithReader(name, r)...)`, as a class. It reads one source after another and closes them all.
- `Engine` (`engine.dfy`): the `Blush` engine as a class. It has the carry-over buffer, `Read`, `Close` and `WriteTo`, plus a `Sink` class standing for the writer.
- `Scenarios` (`scenarios.dfy`): the behaviour that `blush/blush_test.go` pins down, stated as calls of the engine's methods on the tests' own inputs.

The engine is specified against the `Stream` functions. `Remaining()` is everything still to be delivered: the carry-over buffer, then `Output` of the input not yet read. `Front()` is what the next `Read` delivers from: the carry-over buffer, or else the next kept line (`FirstOut`). Each engine method's `ensures` ties its new state and its results to these two. The properties are proved as lemmas about the functions.

## Model

| member | source | states |
|---|---|---|
| Colours.Colourise | blush/blush_test.go:121-154 | A text wrapped in the colour's enter and exit markers. Its contract is stated by StripColourise, which undoes it and gives its length, and ColouriseInjective. |
| Colours.StripColourise | blush/blush_test.go:121-154 | A coloured text strips back to the text itself, and colouring adds exactly the colour's marker bytes to the length. |
| Colours.ColouriseInjective | blush/blush_test.go:121-154 | Two texts coloured alike are equal only when the texts are equal, so a coloured match identifies its text. |
| Colours.ColouriseNoColour | blush/blush_test.go:83-119 | A colour with no markers leaves the text unchanged: no visible colouring. |
| Finders.Finder.String | blush/blush_test.go:373 | A finder's coloured text is its text plus the colour's markers, and it strips back to the text. |
| Finders.Find | blush/blush_test.go:156-208 | The spans the exact finder reports for a line: the search from the line's start. An empty text finds nothing. FindIffOccurs states that it reports something exactly when the text occurs. |
| Finders.FindFrom | blush/blush_test.go:156-208 | The exact search from a position, scanning left to right and resuming after each occurrence. An empty text finds nothing. Its spans are characterised by FindFromSpans and FindFromComplete. |
| Finders.FindFromSpans | blush/blush_test.go:156-208 | Every span the exact finder reports is an occurrence of its text inside the line, and the spans are in order and do not overlap. |
| Finders.FindFromComplete | blush/blush_test.go:156-208 | Every occurrence of the text is covered by some reported span: the finder misses nothing. |
| Finders.FindIffOccurs | blush/blush_test.go:56-81 | The finder reports something exactly when its text occurs in the line. |
| Highlight.FirstAt | blush/blush_test.go:300-330 | Which finder wins at a position: the first, in configuration order, whose non-empty text occurs there. When it answers none, no finder's text occurs there. |
| Highlight.Scan | blush/blush_test.go:300-330 | Splitting a line into copied bytes and matches: the segments' bytes are exactly the line from the position on. |
| Highlight.Paint | blush/blush_test.go:300-330 | Rendering segments: a copied byte as itself, a match wrapped in its finder's colour, in order. Its length is stated by RenderLength. |
| Highlight.RenderLine | blush/blush_test.go:121-154 | A line rendered: its segments painted. RenderUncoloured, RenderUnmatched, RenderLength and RenderExact state what it gives. |
| Highlight.Matched | blush/blush_test.go:56-81 | The retention test: some finder reports a match in the line. MatchedIffHit ties it to the scan. |
| Highlight.MatchedIffHit | blush/blush_test.go:56-81 | A line counts as matched exactly when its scan holds at least one coloured match. |
| Highlight.RenderUncoloured | blush/blush_test.go:83-119 | With finders that have no visible colour, a rendered line is the line unchanged. |
| Highlight.RenderUnmatched | blush/blush_test.go:254-298 | A line no finder matches renders as itself. |
| Highlight.RenderLength | blush/blush_test.go:394-423 | A rendered line's length is the line's length plus the markers of every match in it. |
| Highlight.RenderExact | blush/blush_test.go:394-423 | With one exact finder, rendering replaces each of the finder's occurrences by the coloured text. The length grows by the markers once per occurrence. |
| Highlight.Replace | blush/blush_test.go:412-419 | The reference for `strings.Replace`: the first n non-overlapping occurrences of a pattern, searched left to right, replaced. RenderExact, ReplaceLength and ReplaceFirst state what it gives. |
| Highlight.ReplaceLength | blush/blush_test.go:412-415 | Replacing c occurrences of a pattern changes the length by c times the difference between the replacement and the pattern. |
| Highlight.ReplaceFirst | blush/blush_test.go:416-419 | Replacing the first occurrence of a pattern, with nothing before it, keeps the bytes before and after it and puts the replacement in between. |
| Highlight.RenderOneMatch | blush/blush_test.go:354-392 | A line with one match and no other finder text renders as the bytes before the match, the coloured match, and the bytes after it. |
| Highlight.RenderTwoMatches | blush/blush_test.go:300-330 | Two matches of different finders on one line are each coloured in their own finder's colour, and the rest is copied. |
| Text.Lines | blush/blush_test.go:374 | Splitting a source into lines: no line holds a newline, and there are no more lines than bytes. |
| Text.Terminated | blush/blush_test.go:374 | The source with a newline added after an unterminated last line: it starts with the source, is at most one byte longer, is empty only for an empty source, and otherwise ends in a newline. |
| Text.JoinOfLines | blush/blush_test.go:374 | Joining the lines of a source gives the source back, with a newline added after an unterminated last line. |
| Text.LinesOfJoin | blush/blush_test.go:374 | Splitting newline-free lines that were joined gives the same lines back. |
| Stream.Prefix | blush/blush_test.go:507-543 | The header before a line of a source. It is non-empty only with names printed and a named source, and then it is as long as the name and the separator. |
| Stream.Emit | blush/blush_test.go:56-81 | A line yields output exactly when it matches or NoCut is set. Output ends in a newline and has the name header's length, the rendered line's length and one more byte. |
| Stream.EmitLines | blush/blush_test.go:300-330 | The output of one source's lines, in order; it ends in a newline unless it is empty. |
| Stream.Output | blush/blush_test.go:394-423 | The whole output of the sources, in order; it ends in a newline unless it is empty. |
| Stream.FirstOut | blush/blush_test.go:425-448 | The first kept line of the output, which one computation of the carry-over buffer yields; it ends in a newline unless it is empty. |
| Stream.EmitLinesEmpty | blush/blush_test.go:56-81 | A source yields nothing exactly when none of its lines is kept. |
| Stream.NoMatchNoOutput | blush/blush_test.go:56-81 | Without NoCut, the output is empty exactly when no line of any source matches. |
| Stream.PassUnmatched | blush/blush_test.go:254-298 | With NoCut, a line no finder matches comes out as itself, after its name header, followed by a newline. |
| Stream.NoCutPassThrough | blush/blush_test.go:254-298 | With NoCut, no visible colour and no names, the output is the input, with a newline after each source's last line. |
| Stream.PassThrough | blush/blush_test.go:36 | When every line is kept, no colour is visible and no names are printed, the output is the sources' bytes in order. |
| Stream.NamedLength | blush/blush_test.go:545-610 | With names printed, finders with no visible colour, and every line of the source kept, the source's output is each line after the name and the separator, so it is the terminated source grown by the name and the separator once per line. |
| Stream.OutputAppend | blush/blush_test.go:507-522 | The output of a list of sources is the output of each source in order. |
| Stream.FirstOutPrefix | blush/blush_test.go:425-448 | The next kept line is a prefix of the whole output, and is empty only when the whole output is. |
| Stream.LineStep | blush/blush_test.go:479-505 | Reading one line of the current source consumes that line's output and shrinks the input left. |
| Composer.FirstCloseErrorIsFirst | blush/blush_test.go:332-352 | Closing succeeds exactly when every source closes cleanly. Otherwise the error reported is that of the first source that failed. |
| Composer.MultiReader.constructor | blush/blush_test.go:514-517 | A multi-reader starts with its sources in the given order, open and not yet closed. |
| Composer.MultiReader.ReadByte | blush/blush_test.go:394-401 | A read takes the next byte of the current source, and nothing at its end. |
| Composer.MultiReader.NextSource | blush/blush_test.go:394-401 | Moving on drops the used-up source and keeps the ones after it. |
| Composer.MultiReader.Close | blush/blush_test.go:332-352 | The first Close closes every configured source once, in order: its log of closed source indices gains exactly 0, 1, …, up to the last source. It reports the first close error. A second Close closes nothing and succeeds. |
| Composer.FirstCloseError | blush/blush_test.go:332-352 | The error Close reports: that of the first source, in order, whose close fails, or none. Its meaning is stated by FirstCloseErrorIsFirst. |
| Engine.Sink.Write | blush/blush_test.go:20-27 | A writer with a budget takes a write up to its budget. It fails on the write that reaches the budget, reporting the bytes it took. |
| Engine.CopyPrefix | blush/blush_test.go:380-389 | A read fills the front of the caller's buffer with the bytes delivered and leaves the rest of it alone. |
| Engine.Deliver | blush/blush_test.go:17-54 | One chunk written to the writer is either taken whole or taken up to the writer's budget with a failure. The count then equals what the writer accepted of the whole output. |
| Engine.Blush.constructor | blush/blush_test.go:358-362 | A new engine is open with an empty carry-over buffer. What remains is the whole output of its reader, and the line in front is the first kept line. |
| Engine.Blush.ReadLine | blush/blush_test.go:479-505 | Reading a line takes the current source's bytes up to and including the next newline, whatever the line's length, and returns the line without it. |
| Engine.Blush.Fill | blush/blush_test.go:425-448 | Lines are computed only when the carry-over buffer is empty. Afterwards the buffer holds the next kept line, and nothing remaining is lost or reordered. |
| Engine.Blush.Step | blush/blush_test.go:479-505 | One step either moves past a used-up source or renders the next line into the carry-over buffer, dropping it when cut. |
| Engine.Blush.ReadOpen | blush/blush_test.go:354-392 | A read delivers the first min(buffer size, front) bytes of the front and keeps the rest for later. It reports EOF exactly when nothing remains. |
| Engine.Blush.Read | blush/blush_test.go:450-477 | After Close, a read returns 0 and ErrClosed. Otherwise it delivers from the front of what remains, never more than the buffer holds, and reports EOF exactly at the end. |
| Engine.Blush.Close | blush/blush_test.go:332-352 | Close moves the engine to the closed state for good and drops the carry-over buffer. It closes the reader: if the reader was open, each of its sources is closed once and the first close error is reported; if it was closed already, nothing is closed and Close succeeds. With no reader it succeeds. |
| Engine.Blush.Drain | blush/blush_test.go:394-423 | Pulling through a buffer of any size and writing on gives the writer exactly the remaining output, up to its budget: the output does not depend on the chunk size. The count is what the writer accepted, and the error is the first write failure. |
| Engine.Blush.WriteTo | blush/blush_test.go:17-54 | With no reader: 0 and ErrNoReader. With no writer: 0 and ErrNoWriter. On a closed engine: 0 and ErrClosed. On these paths nothing is read or written: the writer, the carry-over buffer, what remains and the reader's sources are as before. Otherwise it drains into the writer as Drain does. It never changes whether the engine is closed, and never closes the reader. |
| Engine.Blush.Pull | blush/blush_test.go:394-423 | One read into the scratch buffer yields the next chunk of what remains, with at least one byte, or reports the end exactly when nothing remains. |
| Scenarios.TwoLines | blush/blush_test.go:300-305 | A source of two terminated lines outputs the first line's output, then the second's. |
| Scenarios.OneStreamLine | blush/blush_test.go:355-356 | In "one two three four", the finder on "three" matches, and only "three" is coloured. |
| Scenarios.OneStreamOutput | blush/blush_test.go:374 | The one-stream input outputs its line coloured, with a newline added at the end. |
| Scenarios.OpenOneStream | blush/blush_test.go:355-362 | An engine over the one-stream input has that whole output ahead, and the whole output is in front. |
| Scenarios.ReadInto | blush/blush_test.go:377-391 | One read of a given size returns the first bytes of the front and leaves the rest of what remains. |
| Scenarios.ReadOneStream | blush/blush_test.go:354-392 | Reads of 4, 4, the coloured length and 6 bytes return "one ", "two ", the coloured "three" and " four\n", each with no error. A final read into a zeroed 10-byte buffer returns 0 and EOF and leaves the buffer all zeros. |
| Scenarios.ReadAtEnd | blush/blush_test.go:375 | A read once everything has been delivered returns 0 and EOF and leaves the caller's zeroed buffer as it was. |
| Scenarios.OneForAll | blush/blush_test.go:395 | In "one for all", the finder on "one" colours the first word and nothing else. |
| Scenarios.AllForOne | blush/blush_test.go:396 | In "all for one", the finder on "one" colours the last word and nothing else. |
| Scenarios.TwoStreamsOutput | blush/blush_test.go:394-402 | The two-line input outputs each line with its "one" coloured, and the first line is in front. |
| Scenarios.ReplaceOneForAll | blush/blush_test.go:416-419 | Replacing the first "one" of "one for all\n" by its coloured form gives the engine's first line. |
| Scenarios.ReplaceAllForOne | blush/blush_test.go:416-419 | Replacing the first "one" of "all for one\n" by its coloured form gives the engine's second line. |
| Scenarios.OpenTwoStreams | blush/blush_test.go:394-404 | An engine over the two-line input has both coloured lines ahead and the first in front, and its reader closes cleanly. |
| Scenarios.WriteAll | blush/blush_test.go:406-411 | Draining an open engine into a writer without a budget delivers all that remains, with no error, and counts every byte. |
| Scenarios.ReadTwoStreams | blush/blush_test.go:394-423 | Draining gives both lines with their first "one" replaced by its coloured form. The count is 12 + 12 - 2*3 plus twice the coloured length. |
| Scenarios.ReadTwice | blush/blush_test.go:435-447 | Two reads of a size no larger than the front: the first fills the buffer, and the second takes the rest of that line up to the size. Neither fails while output remains. |
| Scenarios.ReadHalfWay | blush/blush_test.go:425-448 | Two 12-byte reads of the two-line input both succeed. The first returns the first 12 output bytes and the second between 1 and 12 of the bytes that follow. When the colour has markers, the second returns the rest of the coloured first line, up to 12 bytes. |
| Scenarios.ReadOnClosed | blush/blush_test.go:450-477 | A read, then Close, then a read: Close succeeds, and the last read returns 0 and ErrClosed. |
| Scenarios.LongLineOutput | blush/blush_test.go:479-486 | The 20008-byte line with "FINDME" in the middle is kept, is the first output line, and grows when coloured. |
| Scenarios.OpenLongLine | blush/blush_test.go:479-488 | An engine over the long line has the whole coloured line in front, more than 20008 bytes, and a reader that closes cleanly. |
| Scenarios.ReadLongLine | blush/blush_test.go:479-505 | A 20-byte read of the long line returns 20 bytes. Close then succeeds, and the next read returns 0 and ErrClosed. |
| Scenarios.CloseClosesReader | blush/blush_test.go:332-352 | Close on an engine over one source succeeds, closes the reader, and calls that source's close exactly once: the close log is [0]. |
| Scenarios.WriteToErrors | blush/blush_test.go:17-54 | WriteTo with no reader gives 0 and ErrNoReader, and the writer receives nothing. With no writer it gives 0 and ErrNoWriter. A second engine on the same reader, with NoCut and a writer that fails after taking 10 bytes, gives 10 and the write error: the failed call read nothing, so all of "something\n" is still there. |
| Scenarios.SomethingOutput | blush/blush_test.go:28-36 | With NoCut and no finders, "something" outputs 10 bytes. |
| Scenarios.ExampleLine | blush/blush_test.go:300-320 | In "this is an example", only "this" matches and is coloured in its finder's colour. |
| Scenarios.SomeoneQuiet | blush/blush_test.go:300-320 | In "someone should find this line", "should" occurs only at 8 and "this" only at 20. |
| Scenarios.SomeoneLine | blush/blush_test.go:300-330 | "someone should find this line" renders "should" in the second finder's colour and "this" in the first's, though "should" comes first in the line. |
| Scenarios.MultipleOutput | blush/blush_test.go:300-330 | The multiple-match input outputs both lines coloured, each followed by a newline. |
| Scenarios.MultipleMatchInOneLine | blush/blush_test.go:300-330 | Draining the multiple-match input succeeds, and the second line is exactly "someone " + coloured "should" + " find " + coloured "this" + " line". |
| Scenarios.CutOrKeep | blush/blush_test.go:254-298 | A matched line then an unmatched one: with NoCut the unmatched line comes out once, unchanged. Without NoCut it is dropped. |
| Scenarios.QuietEmit | blush/blush_test.go:254-298 | An unmatched line of an unnamed source is itself and a newline with NoCut, and nothing without it. |
| Scenarios.WriteNoCut | blush/blush_test.go:254-298 | Draining a matched line and an unmatched one gives the rendered matched line, plus the unmatched line unchanged exactly when NoCut is set. |
| Scenarios.NamedEmit | blush/blush_test.go:507-543 | With names printed and no visible colour, a kept line of a named source is the name, the separator, then the line and a newline. |
| Scenarios.PlainEmit | blush/blush_test.go:545-610 | Without names printed, a kept uncoloured line is the line and a newline. |
| Scenarios.PrintNameLines | blush/blush_test.go:508-523 | The finder on "line" matches both "line one" and "line two", and neither holds a newline. |
| Scenarios.TwoSources | blush/blush_test.go:507-522 | Two one-line sources output their lines in source order. |
| Scenarios.PrintNameOutput | blush/blush_test.go:507-543 | The sources "reader1" and "reader2" output "reader1", separator, "line one\n", then "reader2", separator, "line two\n" with names printed. Without names they output just the two lines. |
| Scenarios.PrintName | blush/blush_test.go:507-543 | With names printed, the drain succeeds and the count is the lines' bytes, the names' bytes and two separators, each name on its own line's output. Without names, the count is the lines' bytes alone (the without-filename case of blush/blush_test.go:545-610). |

## Left out

- The regular-expression finder is not modelled; only the exact finder is.
- The concrete ANSI colour codes and the colour table are not modelled. A colour is any pair of enter and exit markers, and `NoColour` is the empty pair.
- `WithPaths` is not modelled, because it walks the filesystem. Neither are the testdata files the path-based tests read. Those tests appear only through the general lemmas: `NoMatchNoOutput`, `PassUnmatched`, `NoCutPassThrough`, `RenderExact` and `NamedLength`.
- Readers are always `MultiReader`s of named or unnamed sources. A plain `io.ReadCloser` is a `MultiReader` of one unnamed source.
- The writer is the `Sink` class. An `io.Writer` that fails is modelled as a byte budget: the write that reaches it fails after taking the bytes up to it.
- `bytes.Buffer.ReadFrom(b)` at blush/blush_test.go:408 pulls the engine's output through `b.Read`. It is modelled by `WriteAll`, which drains with `WriteTo`. That reaches the same read path: `WriteTo` calls `Drain`, which calls `Pull`, which calls `ReadOpen`, the method `Read` runs on an open engine with a reader.
- Overlapping matches of different finders: the engine's tie rule (the first configured finder whose text starts at a position wins) is modelled, but nothing is proved about overlaps.
- An exact finder with empty text finds nothing.
- Error messages and error wrapping are not modelled; errors are the kinds `ErrNoReader`, `ErrNoWriter`, `ErrClosed`, `EOF` and `WriteFailed`, plus the source's own close error.
- The separator's bytes are taken to be ": ". The tests use only its length.
- With `WithFileName`, a source given without a name gets no header; no test pins this down.
- The name header is modelled as put in front of every kept line of a named source. In every tested case a source has one line, where this equals one header before the source. No separator is emitted between sources, because the without-filename totals at blush/blush_test.go:545-610 are the lines' bytes alone.
- Close closes the sources in configuration order, not the current one first.
- Composer.MultiReader.NextSource: moving past a used-up source does not close it. Close then closes every configured source once, including those already read to the end. Closing each source as it is used up, and closing only the unclosed ones at Close, is not modelled.
- Engine.Blush.Close with no reader has nothing to close and returns no error. No test pins this down.
- Engine.Blush.WriteTo on a closed engine returns 0 and `ErrClosed` and touches neither the writer nor the engine. No test pins this down; it is what a drain that pulls through `Read` meets on its first pull.
- `Read` with no reader returns 0 and `ErrNoReader`; no test pins this down.
- Concurrency and I/O blocking are not modelled.
- Scenarios.ReadHalfWay: the test expects the second read to return 12 bytes. The model states that it returns between 1 and 12 bytes, the ones that follow the first read. When the colour has markers, it states the count is min(12, the colour's marker bytes). This is 12 exactly when the markers are at least 12 bytes, which depends on the concrete colour codes left out above. For a colour without markers, the model does not state that the count is 12. That would need the fact that the carry-over buffer and the next kept line end at a newline, and the engine's invariant does not carry it.
- Scenarios.CloseClosesReader: the test's reader has 18 arbitrary bytes; the model takes any contents.
- Scenarios.ReadLongLine: the test's line is 10000 "a"s, " FINDME " and 10000 "b"s. The model takes any newline-free 10000-byte head and tail.
- Scenarios.WriteNoCut: the text the NoCut test counts is defined outside the test file, and its input is the testdata directory. The model takes any matched line and any unmatched line as parameters.
