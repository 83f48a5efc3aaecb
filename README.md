# sel, modelled in Dafny

`sel` is a column selector in the spirit of `cut` and `awk '{print $n}'`.
Each input line is split into fields. The fields are read through a
*line cursor* (an iterator that splits lazily from the front or the back,
or splits eagerly). A list of *selectors* then writes fields to an output
writer. A selector picks an index, a stepped range `start:stop:step`, or a
sed-style switch `begin:end` whose addresses are field numbers, regular
expressions or `+N`/`-N` context widths. The selectors come from parsed
command-line queries.

The repository carries several generations of the same modules:

- the newest under `internal/`;
- older ones under `iterator/`, `column/`, `paser/`, `src/parser/` and `gen/`.

Each source file has its own Dafny module. Where an older generation's code is the same as the newer one's, its module reuses the newer members. `LegacySwitch` uses `InternalSwitch`'s switch selector, address parsing, `Between`, `SelectAround`, `SelectToggle` and `Selected`. `LegacyIndex.NewIndexSelectorFromString` delegates to `InternalIndex`. `LegacyWriter` uses `InternalOutput`'s `AppendJoined`, `Lines` and `LinesSnoc`.

| source file | module | form |
|---|---|---|
| internal/iterator/iterator.go | `InternalIterator` | classes `Iterator`, `RegexpIterator` |
| iterator/iterator.go | `LegacyIterator` | classes `Iterator`, `RegexpIterator` over a key map |
| iterator/presplit.go | `PreSplit` | class `PreSplitIterator` |
| internal/column/range.go | `InternalRange` | counting and filling loops over an array |
| internal/column/switch.go | `InternalSwitch` | pure address parsing, selection loops |
| internal/column/index.go | `InternalIndex` | pure constructor, `Select` driving the cursor |
| column/range.go, column/index.go | `LegacyRange`, `LegacyIndex` | 0-based legacy selectors |
| column/switch.go | `LegacySwitch` | `Select` over the older writer and cursor |
| column/splitter.go | `LegacySplitter` | splitter and empty-field filter |
| internal/output/writer.go | `InternalOutput` | class `Writer` with template buffering |
| column/writer.go | `LegacyWriter` | class `Writer` |
| internal/option/option.go | `InternalOption` | template rewrite, CSV/TSV choice, option resolution |
| src/parser/parser.go | `SrcParser` | query loop |
| paser/paser.go | `Paser` | `enumerate`, `Parse`, `ParseResult.Select` |
| gen/collections.go | `GenCollections` | `Where`, `Select` |

Helper modules hold the Go library behaviour the code relies on:

- `Wrappers`: `Option` and `Result`.
- `GoStrings`: `strings.Index`, `LastIndex`, `Split` and `Join`.
- `GoStrconv`: `strconv.Atoi` over 64-bit integers, and `Itoa`.
- `Regex`: an abstract engine. It gives the compile error, the match test, the leftmost match span and `Split`. Its one promise is that a match span lies within the text searched; a match may be empty.
- `Fields`: the empty-field filter, the zero-splicing `Expand`, and arithmetic progressions.
- `LazySplit`: the front and back cuts that both lazy cursors' `Next` and `Last` perform.

Every stateful cursor has a ghost `View()`: the fields it presents. For the
lazy iterator this is `front ++ split(remaining) ++ reverse(back)`. Each
operation is proved against that view. A buffered writer is modelled as the
text written so far. Its ghost `lines` and current columns tie that text to
the columns that were written.

## Model

| member | source | states |
|---|---|---|
| InternalIterator.NewIEnumerable | internal/iterator/iterator.go:22-51 | CSV/TSV gives the pre-split strategy on the comma rune; otherwise the regexp flag and the split-before flag choose exactly one of four strategies. An error is returned exactly when the regexp does not compile. |
| InternalIterator.Iterator.constructor | internal/iterator/iterator.go:248-259 | a new cursor has nothing cut and no cache, and presents exactly the fields of the line |
| InternalIterator.Iterator.Reset | internal/iterator/iterator.go:88-94 | installs a new line, empties front, back and the cache, keeps the separator and the filter flag; the view is the new line's fields |
| InternalIterator.Iterator.Next | internal/iterator/iterator.go:161-184 | the field cut off the front (the text before the first separator, empties skipped when filtering) is appended to front; on exhausted text nothing changes |
| InternalIterator.Iterator.Last | internal/iterator/iterator.go:187-210 | mirror of Next: the field after the last separator is appended to back |
| InternalIterator.Iterator.ElementAt | internal/iterator/iterator.go:97-158 | index 0 fails. A field already cut is served without state change. Otherwise the result is field idx (or field -idx from the end) of the view, and it fails exactly when the index is past the number of fields. It never cuts further than the index needs. With the filter, the view is unchanged. |
| InternalIterator.Iterator.FrontElement | internal/iterator/iterator.go:102-128 | a positive index: a field already in front is returned unchanged; otherwise Next runs until front reaches the index or the text is exhausted, and the result is field idx of the view or out of range exactly past the last field |
| InternalIterator.Iterator.BackElement | internal/iterator/iterator.go:130-157 | a negative index: a field already in back is returned unchanged; otherwise Last runs until back reaches the index or the text is exhausted, and the result is field -idx from the end of the view or out of range exactly past the first field |
| InternalIterator.Iterator.ToArray | internal/iterator/iterator.go:212-242 | the view (front, split remaining, back reversed), cached after the first call, and a cached result is returned unchanged |
| InternalIterator.AppendReversed | internal/iterator/iterator.go:234-237 | ToArray's last loop appends back in reverse order |
| InternalIterator.FrontCutView | internal/iterator/iterator.go:161-184 | a filtered front cut moves one field from the unsplit text to front, keeping the view |
| InternalIterator.BackCutView | internal/iterator/iterator.go:187-210 | a filtered back cut moves one field to back, keeping the view (separator that cannot overlap itself) |
| InternalIterator.ElementAtAgreesWithToArray | internal/iterator/iterator.go:97-158 | with the filter, a positive ElementAt returns exactly the field ToArray returns at that position |
| InternalIterator.RegexpIterator.constructor | internal/iterator/iterator.go:421-431 | any pattern is accepted; a new regexp cursor has head 0, an empty map and no cache, and when its cuts end it presents the cuts of the line at the leftmost matches |
| InternalIterator.RegexpIterator.Reset | internal/iterator/iterator.go:409-415 | installs the line, rewinds head, drops the cache; stale map entries stay above head |
| InternalIterator.RegexpIterator.Next | internal/iterator/iterator.go:354-381 | stores the text before the leftmost match under head + 1 and increments head by one; a match that is empty at the start yields an empty field and leaves the text as it was; with removeEmpty it returns only when the skipping of empty fields ends |
| InternalIterator.RegexpIterator.NextKeepingView | internal/iterator/iterator.go:354-381 | one Next: head grows by one exactly when a field is returned, and when the cuts end the text shortens and the view is unchanged |
| InternalIterator.RegexpIterator.ElementAt | internal/iterator/iterator.go:281-352 | a non-negative index is served from the map when already cut, otherwise by cutting forward at most idx + 1 fields, also when the cuts never end; an answer is the value under key idx and earlier keys keep their fields; when the cuts end the result is field idx of the view or "index out of range" exactly past the last field |
| InternalIterator.RegexpIterator.Drain | internal/iterator/iterator.go:392-393 | ToArray's loop cuts to the end of the text without changing the view |
| InternalIterator.RegexpIterator.ToArray | internal/iterator/iterator.go:387-407 | a cached slice is returned unchanged; otherwise, when the cuts end, keys 1..head after draining are exactly the view, and the result is cached |
| LazySplit.PiecesFiltered | internal/iterator/iterator.go:226-233 | the filtered split of the unsplit text needs no special case for empty text |
| LazySplit.FrontCut | internal/iterator/iterator.go:161-184 | a successful front cut shortens the text and, when filtering, yields a non-empty field; a failed one yields nothing |
| LazySplit.BackCut | internal/iterator/iterator.go:187-210 | the same for the back cut |
| LazySplit.FrontCutSplit | internal/iterator/iterator.go:161-184 | without the filter a front cut fails only on empty text, and its field is the first field of strings.Split |
| LazySplit.FrontCutPieces | internal/iterator/iterator.go:161-184 | with the filter a front cut takes the first of the remaining filtered fields |
| LazySplit.BackCutText | internal/iterator/iterator.go:187-210 | without the filter a back cut fails only on empty text and yields a separator-free field that ends the text |
| LazySplit.BackCutSplit | internal/iterator/iterator.go:187-210 | for a separator that cannot overlap itself, the back cut is the last field of strings.Split |
| LazySplit.BackCutPieces | internal/iterator/iterator.go:187-210 | with the filter a back cut takes the last of the remaining filtered fields |
| LazySplit.RegexCut | internal/iterator/iterator.go:354-381 | a regexp cut leaves a suffix of the text; with the filter the field is non-empty and the text shortens; a failed cut yields nothing |
| LazySplit.RegexCutCuts | internal/iterator/iterator.go:354-381 | when the cuts end, a regexp cut shortens the text, its rest still cuts to an end, and it takes the first remaining cut; without the filter it fails only on empty text |
| LazySplit.CutsEnd | internal/iterator/iterator.go:354-381 | when cutting the text forward ends, skipping empty fields at each cut ends too |
| LazySplit.EmptyMatchAtStart | internal/iterator/iterator.go:369-375 | a match that is empty at the start of non-empty text cuts off an empty field and leaves the text uncut, so neither the cuts nor the skipping of empty fields end |
| LazySplit.CutsFiltered | internal/iterator/iterator.go:53-61 | filtering while cutting equals filtering all unfiltered cuts, and leaves no empty field |
| LegacyIterator.NewIEnumerable | iterator/iterator.go:20-49 | the same decision table as the newer generation, with Compile's error returned unchanged |
| LegacyIterator.Iterator.constructor | iterator/iterator.go:224-236 | the map starts with the whole line under key 0, head and tail are 0, and the view is the line's fields |
| LegacyIterator.Iterator.Reset | iterator/iterator.go:88-93 | installs the line, zeroes head and tail, drops the cache, keeps the map, the separator and the filter flag |
| LegacyIterator.Iterator.Next | iterator/iterator.go:143-169 | the front field is stored under head + 1 and head grows by one; tail is untouched |
| LegacyIterator.Iterator.Last | iterator/iterator.go:172-197 | the back field is stored under tail - 1 and tail shrinks by one; head is untouched |
| LegacyIterator.Iterator.NextStep | iterator/iterator.go:124-125 | each step of ElementAt's forward loop shortens the text and, with the filter, keeps the view |
| LegacyIterator.Iterator.LastStep | iterator/iterator.go:106-107 | each step of the backward loop shortens the text and, with the filter, keeps the view |
| LegacyIterator.Iterator.ElementAt | iterator/iterator.go:96-140 | index 0 fails. Keys 1..head and tail..-1 are served without change. Otherwise it cuts at most one field past the index, and the answer is remembered under key idx. The result is the field of the view, failing exactly past the number of fields (with the bounded cross-end lookup; see Findings). |
| LegacyIterator.Iterator.ElementAtFront | iterator/iterator.go:119-138 | the positive half: field idx of the view or an out-of-range error exactly past the fields |
| LegacyIterator.Iterator.CutFrontTo | iterator/iterator.go:124-125 | the forward loop leaves head at most one past the index, stops early only when the text is exhausted, and with the filter keeps the view |
| LegacyIterator.Iterator.LookupFront | iterator/iterator.go:127-138 | after the loop, field idx of the view is found under key idx or through the cross-end key and stored under idx, or the index is past the last field |
| LegacyIterator.Iterator.ElementAtBack | iterator/iterator.go:101-118 | the negative half: field -idx from the end of the view, or an out-of-range error exactly past the fields |
| LegacyIterator.Iterator.CutBackTo | iterator/iterator.go:106-107 | the backward loop stops one field past idx or at the end of the text |
| LegacyIterator.Iterator.LookupBack | iterator/iterator.go:109-118 | after the loop, a back key or the bounded cross-end key answers exactly the indices within the fields |
| LegacyIterator.Iterator.ToArray | iterator/iterator.go:199-222 | keys 1..head, the split remaining text, keys tail..-1 in ascending order: the view, cached |
| LegacyIterator.AppendKeys | iterator/iterator.go:216-218 | ToArray's last loop appends the values under keys lo..hi-1 in key order |
| LegacyIterator.BackField | iterator/iterator.go:102-104 | a key in tail..-1 holds the field that many places from the end of the view |
| LegacyIterator.FrontField | iterator/iterator.go:120-122 | a key in 1..head holds the field at that position of the view |
| LegacyIterator.CrossEndField | iterator/iterator.go:131-136 | on exhausted text the bounded lookup answers exactly the indices within head - tail fields, with the field -idx from the end |
| LegacyIterator.CrossEndAsWrittenOvershoots | iterator/iterator.go:113-118 | the unbounded lookup as written answers ElementAt(-2) on a one-field line from key 0 |
| LegacyIterator.OvershootTrace | iterator/iterator.go:172-236 | constructor then Last leave exactly the map and cursors of that counterexample, with one field |
| LegacyIterator.RegexpIterator.constructor | iterator/iterator.go:394-404 | any pattern is accepted; a new regexp cursor has head 0, an empty map and no cache, and when its cuts end it presents the cuts of the line at the leftmost matches |
| LegacyIterator.RegexpIterator.Reset | iterator/iterator.go:386-392 | installs the line and rewinds head, keeping the map |
| LegacyIterator.RegexpIterator.Next | iterator/iterator.go:331-358 | stores the text before the leftmost match under head + 1 and increments head by one; a match that is empty at the start yields an empty field and leaves the text as it was; with removeEmpty it returns only when the skipping of empty fields ends |
| LegacyIterator.RegexpIterator.NextKeepingView | iterator/iterator.go:331-358 | one Next: head grows by one exactly when a field is returned, and when the cuts end the text shortens and the view is unchanged |
| LegacyIterator.RegexpIterator.ElementAt | iterator/iterator.go:258-329 | a non-negative index is served from the map when already cut, otherwise by cutting forward at most idx + 1 fields, also when the cuts never end; an answer is the value under key idx and earlier keys keep their fields; when the cuts end the result is field idx of the view or "index out of range" exactly past the last field |
| LegacyIterator.RegexpIterator.Drain | iterator/iterator.go:369-370 | ToArray's loop cuts to the end, keeping the view |
| LegacyIterator.RegexpIterator.ToArray | iterator/iterator.go:364-384 | a cached slice is returned unchanged; otherwise, when the cuts end, keys 1..head after draining are exactly the view, and the result is cached |
| PreSplit.SplitLineJoin | iterator/presplit.go:82-96 | without the filter, the stored fields joined by the separator are the line |
| PreSplit.SplitLineFiltered | iterator/presplit.go:73-75 | with the filter no stored field is empty and every non-empty field is kept as often as it occurs, in order |
| PreSplit.SplitLineExample | iterator/presplit.go:82-96 | "a b   c d" split at a space holds two empty fields |
| PreSplit.SplitLineExampleFiltered | iterator/presplit.go:82-86 | the filter drops exactly those empty fields |
| PreSplit.PreSplitIterator.constructor | iterator/presplit.go:82-113 | both constructors store the split (filtered when asked), with l its length and both cursors 0 |
| PreSplit.PreSplitIterator.SplitFields | iterator/presplit.go:67-75 | the split by separator or regexp, then the filter |
| PreSplit.PreSplitIterator.Reset | iterator/presplit.go:66-80 | stores the new line's fields, l their count, and rewinds both cursors |
| PreSplit.PreSplitIterator.ElementAt | iterator/presplit.go:19-32 | k in 1..l gives a[k-1], k in -l..-1 gives a[l+k], anything else is out of range; filtered fields are never empty |
| PreSplit.PreSplitIterator.Next | iterator/presplit.go:34-46 | returns a[head] and advances head, unless either cursor has run through all l fields, in which case nothing changes |
| PreSplit.PreSplitIterator.Last | iterator/presplit.go:48-60 | returns a[l+tail-1] and moves tail back, under the same two guards |
| PreSplit.PreSplitIterator.ToArray | iterator/presplit.go:62-64 | the stored fields, which are the split of the installed line, unchanged |
| PreSplit.ElementAtMatchesToArray | iterator/presplit.go:19-64 | ElementAt serves exactly the fields ToArray returns, from either end |
| InternalRange.NormStopAtMost | internal/column/range.go:25-36 | the normalised stop never passes the last field, is the last field when unbounded, and a negative in-range stop lands in 1..m |
| InternalRange.CountSlots | internal/column/range.go:51-58 | the counting loop counts one slot per visited index and a whole row for index 0 |
| InternalRange.CopyRow | internal/column/range.go:62-66 | the whole-row case copies the row into consecutive slots |
| InternalRange.FillOne | internal/column/range.go:60-72 | one fill step writes the whole row for index 0, else field i |
| InternalRange.FillTurn | internal/column/range.go:60-72 | one fill turn keeps the slots written so far equal to the expansion of the indices visited so far, and the slots left equal to what the rest of the walk needs |
| InternalRange.FillSlots | internal/column/range.go:60-72 | the fill pass writes exactly the expansion of the walked indices into the l slots the counting pass sized, leaving none unfilled |
| InternalRange.SelectColumns | internal/column/range.go:21-104 | the selection on the row: single field or an out-of-range error when start equals stop, the step-direction errors, else the walked fields with index 0 spliced as the whole row |
| InternalRange.Select | internal/column/range.go:21-105 | takes ToArray's row and writes exactly that selection, or returns its error and writes nothing |
| InternalRange.WholeRow | internal/column/range.go:31-33 | the unbounded range from 1 writes the entire row |
| InternalRange.ExpandDescending | internal/column/range.go:80-101 | walking down from m to 1 yields the row reversed |
| InternalRange.Backwards | internal/column/range.go:25-36 | -1:-1:1 writes the row backwards |
| InternalRange.ColumnsFromRow | internal/column/range.go:60-101 | every field a successful selection writes is a field of the row |
| InternalRange.FarStopDescending | internal/column/range.go:25-101 | on three fields `3:-5:-5` normalises the stop to -1, walks only index 3 and selects the third field |
| InternalIndex.NewIndexSelectorFromString | internal/column/index.go:18-24 | the default for the empty query; else the signed decimal value, with an error exactly when the text is not a 64-bit integer |
| InternalIndex.FromItoa | internal/column/index.go:18-24 | every 64-bit index written in decimal reads back without error |
| InternalIndex.Select | internal/column/index.go:26-37 | index 0 writes the whole row, another index writes exactly the one field ElementAt finds; its error is returned and nothing is written |
| InternalIndex.IndexIsRange | internal/column/index.go:26-37 | index N and range N:N select the same field |
| InternalSwitch.Between | internal/column/switch.go:39-47 | with min 0 the result lies in 0..max, and a value already inside is kept |
| InternalSwitch.Abs | internal/column/switch.go:50-55 | the magnitude of a, a natural number |
| InternalSwitch.Window | internal/column/switch.go:86-96 | a match at i with context num writes row[max(i+num,0)..i] for negative num and row[i..min(i+num,L-1)] otherwise |
| InternalSwitch.SelectAround | internal/column/switch.go:86-96 | the around-context loop writes one window per begin match, in order |
| InternalSwitch.SelectToggle | internal/column/switch.go:100-113 | the switching loop writes from each begin match through the next end match, not testing the opening field against end |
| InternalSwitch.Select | internal/column/switch.go:58-117 | writes exactly the around or switching selection of ToArray's row |
| InternalSwitch.ToggleFromRow | internal/column/switch.go:100-113 | switching output is a subsequence of the row: it is the fields at the strictly increasing positions `ToggleKept` lists, each written once and in row order |
| InternalSwitch.ToggleNumbersPrefix | internal/column/switch.go:100-113 | with numeric addresses b and f, output switches on at b and off after f when f is later, else runs on |
| InternalSwitch.ToggleNumbers | internal/column/switch.go:100-113 | the switch N:M writes fields N..M, or N to the end of the row when M is not after N |
| InternalSwitch.AroundNumberPrefix | internal/column/switch.go:86-96 | with a numeric begin only that field's window is written |
| InternalSwitch.AroundNumber | internal/column/switch.go:86-96 | N:+K writes field N and K after it, N:-K the K before it and N, cut at the row's ends |
| InternalSwitch.AroundFromRow | internal/column/switch.go:86-96 | around output holds only fields of the row |
| InternalSwitch.NewAddress | internal/column/switch.go:123-138 | digits are a field number (error past the 64-bit range), /p/ compiles p, anything else is "is not valid address" |
| InternalSwitch.NewEndAddress | internal/column/switch.go:140-156 | +N or -N is a context of N fields, anything else an ordinary address |
| InternalSwitch.NewSwitchSelector | internal/column/switch.go:158-169 | both addresses, or the error of the first that fails |
| InternalSwitch.AddressFromItoa | internal/column/switch.go:123-138 | a field number in decimal parses to itself |
| InternalSwitch.EndAddressFromItoa | internal/column/switch.go:140-156 | a negative decimal is a context before the match |
| InternalSwitch.RegexpAddress | internal/column/switch.go:123-138 | the slashes of /p/ are not part of the compiled expression |
| LegacySwitch.Select | column/switch.go:50-87 | writes to the older writer exactly the around or switching selection of the row, which uses the same address and loop semantics as the newer generation |
| LegacyIndex.NewIndexSelectorFromString | column/index.go:17-23 | the same reading as the newer generation: default for empty, else Atoi with its error |
| LegacyIndex.SelectAsWrittenPanics | column/index.go:25-34 | the guard lets index 1 through on a one-field line, and the 0-based read panics |
| LegacyIndex.SelectAsWritten | column/index.go:25-34 | the code as written panics exactly for a negative index or a non-zero index equal to the length; it returns "index out of range" exactly for an index past the length, index 0 returns the row, and any other index the single field at that 0-based position |
| LegacyIndex.Select | column/index.go:25-34 | index 0 or an index below the length succeeds, every other one is "index out of range" |
| LegacyIndex.SelectAgreesWhereDefined | column/index.go:25-34 | the corrected select agrees with the code wherever the code returns, and the code panics exactly for index == length |
| LegacyIndex.SelectFields | column/index.go:29-33 | index 0 returns the row unchanged, index k the single 0-based field k |
| LegacyRange.Picked | column/range.go:49-60 | the fields at the visited 0-based positions, in order |
| LegacyRange.WalkLoop | column/range.go:49-60 | either walk loop appends strings[i] for every visited i |
| LegacyRange.SelectColumns | column/range.go:20-64 | Select as written, with max = len-1 normalisation and the step-direction errors |
| LegacyRange.SingleIndexLagsAsWritten | column/range.go:38-60 | as written, 1:1 on l,a,b selects l while 1:2 selects a,b |
| LegacyRange.SingleIndexStartsRange | column/range.go:38-60 | corrected, k:k selects the field k:k+1 starts with |
| LegacyRange.WholeSlice | column/range.go:20-64 | the unbounded range from 0 selects the whole slice |
| LegacyRange.FarStopDescending | column/range.go:20-63 | on four fields `3:-5:-5` normalises the stop to -1, walks only position 3 and selects that field |
| LegacySplitter.NewSplitter | column/splitter.go:14-16 | a literal separator, no regexp, empty fields kept |
| LegacySplitter.NewSplitterRegexp | column/splitter.go:18-21 | the compiled expression, or none with Compile's error; empty fields kept |
| LegacySplitter.RemoveEmptyColumn | column/splitter.go:31-44 | the input unchanged without the flag, else the non-empty fields in order |
| LegacySplitter.Split | column/splitter.go:23-29 | the raw split by separator or regexp, then the filter |
| LegacySplitter.SplitFieldsJoin | column/splitter.go:23-29 | without the filter, joining the fields with the separator gives the line back |
| LegacySplitter.SplitFieldsFiltered | column/splitter.go:31-44 | with the filter: no empty field, every non-empty field kept as often as it occurs, filtering is idempotent, never longer |
| LegacyWriter.Writer.constructor | column/writer.go:17-19 | nothing written, auto-flush off |
| LegacyWriter.Writer.SetAutoFlush | column/writer.go:21-23 | sets the flag and changes nothing else |
| LegacyWriter.Writer.Write | column/writer.go:25-56 | no columns is a no-op; otherwise the columns joined by the delimiter, with one leading delimiter exactly when the line has columns, and the counter grows by their number |
| LegacyWriter.Writer.WriteNewLine | column/writer.go:58-62 | a newline ends the line and the counter returns to 0; every completed line is its columns joined by the delimiter |
| LegacyWriter.WritesConcatenate | column/writer.go:25-56 | two writes on one line give the same text as one write of both column lists |
| InternalOutput.AppendJoined | internal/output/writer.go:49-60 | Write's loop appends the columns joined by the delimiter |
| InternalOutput.LinesSnoc | internal/output/writer.go:84-86 | each completed line adds its joined columns and a newline |
| InternalOutput.Writer.constructor | internal/output/writer.go:21-29 | delimiter and template from the options, nothing written |
| InternalOutput.Writer.Write | internal/output/writer.go:31-69 | no columns is a no-op; with a template the columns are only collected; otherwise the joined columns with a leading delimiter exactly when the line has columns, and the counter grows by their number |
| InternalOutput.Writer.WriteNewLine | internal/output/writer.go:72-87 | without a template a newline and counter 0; with one, the text the template wrote is appended and its error returned; the collected columns are cleared only when it succeeds |
| InternalOption.IsXsv | internal/option/option.go:116-124 | CSV or TSV set means CSV/TSV input; the rune is tab exactly when only TSV is set, else comma |
| InternalOption.RewriteTemplate | internal/option/option.go:171-181 | the rewriting loop computes the marker rewrite: the k-th {} becomes the action reading field k, everything else copied |
| InternalOption.RewriteNoMarker | internal/option/option.go:172-181 | a template without {} is rewritten to itself |
| InternalOption.RewriteAppend | internal/option/option.go:171-181 | the rewrite is compositional and marker numbering continues across the join |
| InternalOption.RewriteExample | internal/option/option.go:174-179 | "{}-{}" gets actions 0 and 1, and "{x}" is copied |
| InternalOption.ParseTemplate | internal/option/option.go:165-184 | the rewritten text is parsed; the template parser's error comes back unchanged |
| InternalOption.NewOption | internal/option/option.go:127-163 | field splitting forces the delimiter `\s+` and regexp splitting; all other flags copied; fails exactly when a non-default template does not parse, with the parser's error for the rewritten template; otherwise a non-default template is the rewritten text and the default one is absent |
| SrcParser.RangeQuery | src/parser/parser.go:28-58 | a decoded range has a non-zero step and an unbounded stop exactly when the stop section is empty |
| SrcParser.IndexQuery | src/parser/parser.go:19-63 | an index query yields an index or a range with a non-zero step; a single section is an index read by Atoi; four or more sections are "is invalid index query" |
| SrcParser.ParseQuery | src/parser/parser.go:19-77 | a switch selector only for a switch query that is not an index query, an index or range only for an index query, never a zero step, and "is invalid query" when the query is neither |
| SrcParser.Parse | src/parser/parser.go:10-81 | one selector per query in order when every query parses; otherwise the error of the first failing query |
| SrcParser.IndexFromItoa | src/parser/parser.go:20-26 | a decimal integer is an index query for itself |
| SrcParser.IndexNotNumeric | src/parser/parser.go:20-26 | a colon-free non-number fails with Atoi's error |
| SrcParser.TwoSections | src/parser/parser.go:28-54 | start:stop: start defaults to 1; an empty stop means the start with an unbounded stop; step 1 |
| SrcParser.ThreeSections | src/parser/parser.go:28-58 | start:stop:step: the third section is the step, default 1, and a zero step is "step cannot be zero" |
| SrcParser.ExampleFull | src/parser/parser.go:28-60 | 2:10:3 is start 2, step 3, stop 10 |
| SrcParser.ExampleAll | src/parser/parser.go:28-46 | ":" is everything from field 1 on |
| SrcParser.ExampleZeroStep | src/parser/parser.go:56-58 | 1:10:0 is rejected for its zero step |
| SrcParser.TooManySections | src/parser/parser.go:61-62 | four or more sections are "is invalid index query" |
| Paser.Enumerate | paser/paser.go:84-107 | the two loops compute the enumeration |
| Paser.EnumerationSpec | paser/paser.go:84-107 | fails exactly for a non-positive step or a negative bound, with the matching message; otherwise starts at start, moves by step towards stop, never passes it, and stops only when the next step would |
| Paser.DescendingColumns | paser/paser.go:94-97 | counting down from start by step yields start - k*step for each k, never below stop, and ends just before passing it |
| Paser.AscendingColumns | paser/paser.go:98-101 | counting up from start by step yields start + k*step for each k, never above stop, and ends just before passing it |
| Paser.EnumerationExamples | paser/paser.go:94-104 | 1:2:10 gives 1,3,5,7,9; 1:3:10 gives 1,4,7,10; 4:1:1 counts down 4,3,2,1 |
| Paser.EnumeratedAppend | paser/paser.go:49-79 | parsing a concatenation of query lists concatenates their columns, and the first error wins |
| Paser.Parse | paser/paser.go:40-82 | the concatenated enumerations of all queries in order, or the first error |
| Paser.ShapedErrors | paser/paser.go:52-77 | a query of the three digit shapes can fail only for a zero step |
| Paser.OneRun | paser/paser.go:52-57 | `a` is the single column a |
| Paser.TwoRuns | paser/paser.go:58-63 | `a:b` is enumerate(a, 1, b) |
| Paser.ThreeRuns | paser/paser.go:64-69 | `a:b:c` is enumerate(a, b, c): the middle number is the step |
| Paser.NegativeRejected | paser/paser.go:70-72 | "-1" is "is invalid query" |
| Paser.Select | paser/paser.go:15-30 | succeeds exactly when every column lies in 0..len, with 0 the whole line and k field k; otherwise the message names the first bad column |
| Paser.SelectedFields | paser/paser.go:15-30 | as many fields as the columns ask for, all from the line; a repeated column repeats its field |
| Paser.WholeLine | paser/paser.go:15-107 | 1:len selects the whole line |
| GenCollections.Where | gen/collections.go:11-18 | the loop keeps exactly the accepted elements in order |
| GenCollections.Select | gen/collections.go:20-25 | same length, and the i-th result is the selector applied to the i-th element |
| GenCollections.FilteredExactly | gen/collections.go:11-18 | every kept element is accepted and every accepted element is kept as often as it occurs; never longer |
| GenCollections.FilteredAppend | gen/collections.go:11-18 | filtering keeps the original order across a concatenation |
| GenCollections.FilteredIdempotent | gen/collections.go:11-18 | filtering twice changes nothing |

## Left out

- Command line and I/O: cobra/viper flags, the file and standard-input loops, shell completion, in-place rewriting with backups (rw), and file globbing (`InputFiles.Enumerate`). The older option/option.go only copies flags and is not part of this model.
- `regexp` and `text/template` are foreign code. The regexp engine is the abstract `Regex.Engine`, which gives the compile error, the leftmost match and the split. Template execution is a function parameter, and template parsing is a parameter that returns an error.
- The buffered writer's write errors and flushing (`Flush`, and auto-flush after `Write`) are left out. Writer buffers are the text written so far.
- CSV/TSV record decoding (`encoding/csv`, RFC 4180 section 2) is left out. Only the strategy decision is modelled.
- InternalIterator.RegexpIterator.ElementAt: negative indices are not modelled. That path stores the last piece without moving `tail`, and a later ToArray can index past its array.
- LegacyIterator.RegexpIterator.ElementAt: negative indices are not modelled, for the same reason.
- `RegexpIterator.Last` and every `ResetFromArray` only panic, so they are left out.
- parser/parser.go and parser/query.go are not part of this model. Their index-query pattern is unanchored and matches every query, so their behaviour depends wholly on the regexp engine.
- enumerable/enumerable.go is not part of this model. It is unfinished, and `NewRange` fails on every path.
- The `IEnumerable` interface is not modelled as an interface. Each selector's `Select` takes the concrete lazy `Iterator` of its own generation.
- SrcParser.Parse: the index and switch query patterns of src/parser/query.go, and the switch query's address capture, are a `Classifier` parameter. The loop that converts the arguments to queries is the identity here.
- LegacySwitch: the `match`, `between`, `newAddress`, `newEndAddress` and `NewSwitchSelector` of column/switch.go are the same code as in internal/column/switch.go, so the `InternalSwitch` members model them.
- GoStrconv.Quote: the quoted input in Atoi's error messages is wrapped in double quotes only; strconv.Quote also escapes quotes, backslashes and non-printable characters, which the error texts here do not.
- SrcParser.Parse: src/parser/parser.go:70 calls `NewSwitchSelector` of src/column, whose switch file is not part of this model. `InternalSwitch.NewSwitchSelector` stands in for it.
- InternalSwitch.Select: the capacity estimate at internal/column/switch.go:64-85 is not modelled. It sizes the slice and does not change the fields written, but `abs(num) + 1` wraps for a width near the 64-bit limits, and when begin is a regular expression the product `maximum * contextWidth` at internal/column/switch.go:72 can overflow as well; `make` then panics on a negative capacity.
- InternalSwitch.Select, InternalSwitch.SelectAround and InternalSwitch.Window: the 64-bit wrap-around of `i + num + 1` and `i + num` is not modelled, because the integers here are unbounded. With a width near the largest `int` the wrapped end clamps to 0: `1:+9223372036854775807` writes nothing when field 1 matches and panics for a later match. The model writes to the end of the row.
- LegacySwitch.Select: the same wrap-around is not modelled, with the same example.
- InternalRange.CountSlots, InternalRange.FillTurn and InternalRange.FillSlots: the 64-bit wrap-around of `i += step` is not modelled. A walk whose next index passes the largest or smallest `int` wraps and walks on in Go, but stops here.
- InternalRange.Select and InternalRange.SelectColumns: the same wrap-around is not modelled, for steps and bounds near the 64-bit limits.
- LegacyRange.WalkLoop and LegacyRange.SelectColumns: the same wrap-around is not modelled.
- InternalIterator.RegexpIterator.constructor and LegacyIterator.RegexpIterator.constructor accept every pattern. A pattern that matches the empty text at the start of what is left, such as `,*` before `a`, cuts off nothing (LazySplit.EmptyMatchAtStart). Without removeEmpty, Next then returns an empty field forever, and ToArray never returns. With removeEmpty, Next calls itself until the stack overflows. Next with removeEmpty, Drain and ToArray therefore require the cuts to end (`LazySplit.SkipEnds`, `LazySplit.CutsEnd`). The view is stated only when they end.
- InternalIterator.RegexpIterator.ElementAt and LegacyIterator.RegexpIterator.ElementAt with removeEmpty require the whole line's cuts to end, although Go only loops forever when the cutting gets stuck within the first idx + 1 fields.
- LegacyIterator.Iterator.ElementAt, LegacyIterator.Iterator.ElementAtBack and LegacyIterator.Iterator.LookupBack use the bounded cross-end lookup (LegacyIterator.CrossEndField), not the unbounded one the code has at iterator/iterator.go:113-116. So NewIterator("a", " ", false), then Last, then ElementAt(-2) is "index out of range" here, where the code answers "a" from key 0 (see Findings and LegacyIterator.CrossEndAsWrittenOvershoots).
- InternalSwitch.Select: the error `Write` could return is not modelled.
- LegacySwitch.Select: the error `Write` could return is not modelled.
- Paser.Enumerate: 64-bit wrap-around of `i += step` near the largest `int` is not modelled, because the integers here are unbounded.
- InternalOption.RewriteTemplate: characters stand in for bytes. The byte-by-byte conversion of multi-byte UTF-8 characters is not modelled.
- Go panics are preconditions, not error results:
  - PreSplit.PreSplitIterator.ElementAt requires a non-zero index, because index 0 reads `a[-1]`.
  - InternalRange.Select and InternalRange.SelectColumns require every index a walk visits to lie in 0..m, and a single index to be at least 1. LegacyRange.SelectColumns requires every visited position to lie in 0..max. The bound itself may lie outside when the walk stops short of it: `3:-5:-5` on three fields visits only index 3 (InternalRange.FarStopDescending). A visited index outside the row makes the source index out of range. A walk with a zero step loops forever; the query parsers reject a zero step.
  - LegacyIndex.Select requires a non-negative index.
  - The lazy iterators require a non-empty separator.
- InternalIterator.Iterator.ElementAt: the view is proved unchanged only when empty fields are removed, and for a negative index also only when the separator cannot overlap itself. Without the filter, the code treats an exhausted text as having no field, so a trailing empty field can disappear once the cursor reaches it.
- LegacyIterator.Iterator.ElementAt has the same restriction on the view.

## Findings

| source | as written | input that shows it | evidently intended | confidence | as-written member | corrected member |
|---|---|---|---|---|---|---|
| iterator/iterator.go:113-118 | once the line is exhausted, a negative index past the back keys is answered from key idx - tail + head + 1 with no check against the number of fields | NewIterator("a", " ", false), Last, then ElementAt(-2): the map is {0: "a", -1: "a"}, there is one field, and key 0 (set by the constructor) answers "a" | answer only when -idx <= head - tail, as the positive branch at 131 and internal/iterator/iterator.go:147-155 do | medium, not executed | LegacyIterator.CrossEndAsWrittenOvershoots | LegacyIterator.CrossEndField |
| column/index.go:26-33 | the guard `len(strings) < index` and the read `strings[index]` disagree about the base, so index == len passes the guard and the read panics | ["a"] with index 1 panics | two readings fit: 0-based, as the walks in column/range.go read, the guard is wrong and every index from the length on is "index out of range"; 1-based, as column/index_test.go:67 expects (`cols[index-1]`), the read at :33 is wrong and should be `strings[index-1]`; the model corrects the guard and keeps the 0-based read | high, not executed | LegacyIndex.SelectAsWrittenPanics | LegacyIndex.SelectAgreesWhereDefined |
| column/range.go:38-60 | a single index reads `strings[start-1]` while the walk loops read `strings[i]`, so the two disagree by one position | ["l", "a", "b"]: 1:1 gives ["l"] but 1:2 gives ["a", "b"] | read the single index 0-based like the walks (column/selector_test.go:79 expects the as-written result) | medium, not executed | LegacyRange.SingleIndexLagsAsWritten | LegacyRange.SingleIndexStartsRange |
