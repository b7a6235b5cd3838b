# Emoji list generator, modelled in Dafny

The generator (`generate/generate.go`) builds the emoji list used by the picker. It does this in five steps:

1. It reads the Unicode emoji data files (`emoji-data.txt`, `emoji-sequences.txt`, `emoji-zwj-sequences.txt`) line by line. Each line is `code points ; tag ; ... # comment`. The code points are either a range `START..END` or a space-separated list of hexadecimal code points.
2. It builds the emoji set: every emoji of the sequence and ZWJ-sequence files, minus the standalone skin-tone modifiers that `emoji-data.txt` tags `Emoji_Modifier`.
3. It reads the CLDR English annotations (`annotations/en.xml`, then `annotationsDerived/en.xml` on top of it). Each annotation gives an emoji's text-to-speech name and its keywords.
4. It reads the `emoji` collation of CLDR's `collation/root.xml` into a table that gives each key a rank.
5. It sorts the emoji by the rank of their longest ranked prefix, breaking ties with `strings.Compare`. Then it prints one line per emoji, `emoji name keywords`, leaving out the keywords that already occur in the name. It stops at the first emoji that has no annotation.

The model has one module per stage. Each loop of the source that builds a result or updates state is a Dafny `method` with its invariants. The method is proved equal to a specification function, and the properties are proved about that function. The one exception is the prefix-shortening loop of `collationOrder` (generate/generate.go:253-259): it only computes a value, so it is the recursive function `Collation.CollationOrder`, characterised by `Collation.CollationOrderLongestPrefix`:

- `Results`: the `Option` and `Result` wrappers, and the fatal errors.
- `GoStrings`: the parts of Go's `strings` package that the generator uses, over code-point strings.
- `EmojiData`: parsing one data-file line (`parseEmojiDataLine`).
- `EmojiSet`: the modifier list and the emoji set (`emojiModifiers`, `emojisInFile`, `emojis`).
- `Annotations`: the annotation maps (`annotationsInFile`, `annotations`).
- `Collation`: selector removal, the rank table and the rank lookup (`removePresentationSelector`, `collationData`, `collationOrder`).
- `Sorting`: `slices.SortFunc` as an in-place insertion sort over a comparator that totally orders strings. It proves that any two orderings of the same emoji that respect the comparator are the same list.
- `EmojiOrder`: the comparator of `generate` and the proof that it is a total order.
- `Generate`: the keyword filter, the line format, the render loop and `generate` itself.

Inputs are decoded values, not downloads:

- each data file is a sequence of lines;
- each annotations file is a sequence of `(cp, type, text)` records;
- `root.xml` is a sequence of `(type, cr)` collation elements.

The output is the list of printed lines together with the error the generator stops with, if any.

## Model

| member | source | states |
|---|---|---|
| GoStrings.Index | generate/generate.go:28 | the result is the first index where the separator occurs, or -1 when it occurs nowhere |
| GoStrings.ContainsMeaning | generate/generate.go:306 | strings.Contains holds exactly when the substring occurs at some index |
| GoStrings.CutAt | generate/generate.go:28 | when found, the string is before + separator + after, and the separator does not occur earlier; when not found, the result is the whole string and the separator occurs nowhere |
| GoStrings.SplitN | generate/generate.go:32 | one to n pieces; joined with the separator they give back the input; only the last piece may hold the separator, and it cannot when fewer than n pieces are returned |
| GoStrings.SplitOn | generate/generate.go:53 | at least one piece; no piece holds the separator; joined with the separator they give back the input |
| GoStrings.TrimSpace | generate/generate.go:36-37 | the result is no longer than the input, and it neither starts nor ends with white space |
| GoStrings.TrimLeftSpace | generate/generate.go:36 | the result is a suffix of the input; everything dropped is white space; the result does not start with white space |
| GoStrings.TrimRightSpace | generate/generate.go:36 | the result is a prefix of the input; everything dropped is white space; the result does not end with white space |
| GoStrings.Fields | generate/generate.go:166 | every field is non-empty and holds no separator |
| GoStrings.FieldsDropOnlySeparators | generate/generate.go:166 | the fields, concatenated, are the input with its separators deleted, so splitting loses nothing else |
| GoStrings.Compare | generate/generate.go:297 | the result is -1, 0 or 1, and it is 0 exactly for equal strings; its order is stated by CompareIsLexicographic |
| GoStrings.CompareIsLexicographic | generate/generate.go:297 | strings.Compare(a, b) is negative exactly when a is a proper prefix of b or, at the first position where they differ, a's code point is smaller; and positive exactly in the mirrored case |
| GoStrings.CompareAntisymmetric | generate/generate.go:297 | swapping the arguments negates the result |
| GoStrings.CompareTransitive | generate/generate.go:297 | the order strings.Compare defines is transitive |
| EmojiData.ParseHex | generate/generate.go:39 | strconv.ParseInt(s, 16, 32): a parsed value fits in a signed 32-bit integer; the empty string is rejected; the exact accepted set and value are stated by ParseHexMeaning |
| EmojiData.HexValueMeaning | generate/generate.go:39 | a digit string is accepted exactly when it is non-empty and every character is a hexadecimal digit of either case, and its value is its place value in base 16 |
| EmojiData.ParseHexMeaning | generate/generate.go:39 | strconv.ParseInt(s, 16, 32) succeeds exactly when s is an optional sign followed by one or more hexadecimal digits whose signed place value lies in [-2^31, 2^31), and then returns that signed value |
| EmojiData.LeadingZero | generate/generate.go:56 | a leading zero changes neither the acceptance nor the value of a numeral, so zero-padded code points parse to their value |
| EmojiData.PaddedCodePoint | generate/generate.go:53-56 | the zero-padded code point `0023` of the data files parses to 0x23 |
| EmojiData.LowerCaseDigit | generate/generate.go:39 | a lower-case hexadecimal digit has the same value as its upper-case form |
| EmojiData.ParseHexOfFormat | generate/generate.go:39 | every value below 2^31, written as upper-case hexadecimal, parses back to itself |
| EmojiData.RangeEmojis | generate/generate.go:47-50 | `start..end` yields end-start+1 single-code-point emoji start, start+1, ..., in order, and none when start > end |
| EmojiData.ExpandRange | generate/generate.go:47-50 | the range loop yields exactly RangeEmojis(start, end) |
| EmojiData.RangeAsWritten | generate/generate.go:47 | the slice allocation panics exactly when end - start + 1 is negative; otherwise the range is RangeEmojis |
| EmojiData.ReversedRangePanics | generate/generate.go:47 | a range written backwards by more than one crashes the source, where the corrected range yields no emoji |
| EmojiData.ParseCodePoints | generate/generate.go:53-61 | succeeds exactly when every field parses; the result has one code point per field, in order; a failure reports the first field that does not parse |
| EmojiData.DecodeCodePoints | generate/generate.go:53-61 | the rune-array loop returns exactly ParseCodePoints of the fields |
| EmojiData.Parts | generate/generate.go:32 | a line body splits into one to three `;`-separated parts |
| EmojiData.ParseEmojiDataLine | generate/generate.go:27-63 | the method returns exactly ParseLine of the line |
| EmojiData.BlankLineYieldsNothing | generate/generate.go:28-31 | a line that is empty once its `#` comment is cut yields no emoji, an empty tag and no error |
| EmojiData.RangeLineYields | generate/generate.go:36-51 | a range line yields the range's emoji in ascending order, and the trimmed second field as its tag |
| EmojiData.ListLineYields | generate/generate.go:53-62 | a list line whose fields all parse yields one emoji made of those code points, in order, and the trimmed tag |
| EmojiData.ParseLineFails | generate/generate.go:27-61 | a line fails exactly when its body is non-empty and it has fewer than two parts, a range bound that does not parse, or a listed code point that does not parse |
| EmojiSet.ParseAllSnoc | generate/generate.go:76-81 | loop helper: parsing one more line either appends its result or fails with that line's error |
| EmojiSet.ParseAllStopsAtFailure | generate/generate.go:78-81 | once a line fails, the whole file fails with that line's error |
| EmojiSet.Modifiers | generate/generate.go:82-84 | an emoji is a modifier exactly when some line tagged `Emoji_Modifier` lists it |
| EmojiSet.Keep | generate/generate.go:106-110 | the result is no longer than the input, and an emoji is in it exactly when it is in the input and is not a modifier |
| EmojiSet.KeepAppend | generate/generate.go:106-110 | the filter distributes over concatenation, so the kept emoji stay in input order |
| EmojiSet.KeepSnoc | generate/generate.go:106-110 | loop helper: filtering one more emoji appends it exactly when it is not a modifier |
| EmojiSet.AllEmojis | generate/generate.go:100-111 | an emoji is listed exactly when some line of the file yields it |
| EmojiSet.KeptEmojisInOrder | generate/generate.go:100-111 | filtering line by line is the same as filtering the whole file's emoji at once |
| EmojiSet.EmojiModifiers | generate/generate.go:65-87 | the loop returns the emoji of the `Emoji_Modifier` lines in file order, or the first line's error |
| EmojiSet.AppendKept | generate/generate.go:106-110 | the inner loop appends exactly the line's non-modifier emoji, in order |
| EmojiSet.EmojisInFile | generate/generate.go:89-113 | the loop returns every non-modifier emoji of the file in order, or the first line's error |
| EmojiSet.ModifierSet | generate/generate.go:120-123 | the modifier set holds exactly the emoji of the modifier list |
| EmojiSet.Emojis | generate/generate.go:115-133 | the method returns exactly EmojiSetOf of the three files |
| EmojiSet.EmojiSetContents | generate/generate.go:115-133 | when all three files parse, the set is the sequence file's non-modifier emoji followed by the ZWJ file's, and no modifier is in it |
| Annotations.NameOf | generate/generate.go:163-164 | an emoji's name is the text of its last `tts` record, and empty when it has none |
| Annotations.KeywordsOf | generate/generate.go:165-166 | an emoji's keywords are the fields of its last non-`tts` record, and none when it has none |
| Annotations.KeywordsAreFields | generate/generate.go:166 | every keyword is non-empty and holds neither a space nor a vertical bar |
| Annotations.AnnotationsOfMeaning | generate/generate.go:156-168 | the map has one entry per `cp` of the file, holding NameOf and KeywordsOf that `cp`, so a later record replaces, and never extends, what an earlier one set |
| Annotations.AnnotationsInFile | generate/generate.go:140-170 | the record loop builds exactly AnnotationsOf of the records |
| Annotations.Merge | generate/generate.go:191 | maps.Copy: the keys are the union; a derived entry overrides the primary one; a primary entry survives where there is no derived one |
| Annotations.ReadAnnotations | generate/generate.go:172-193 | every emoji of either file has an entry; it holds the derived file's name and keywords where that file mentions the emoji, and the primary file's otherwise |
| Collation.RemovePresentationSelectorMeaning | generate/generate.go:195-197 | no U+FE0F is left, nothing is added, and a string without U+FE0F is unchanged |
| Collation.RemovePresentationSelectorIdempotent | generate/generate.go:195-197 | removing the selectors twice is removing them once |
| Collation.RemovePresentationSelectorAppend | generate/generate.go:195-197 | removal distributes over concatenation, so every other character keeps its place |
| Collation.EmojiRules | generate/generate.go:218-224 | the rules are those of the first collation of type `emoji`, and empty when there is none |
| Collation.FindEmojiCollation | generate/generate.go:218-224 | the search loop returns exactly EmojiRules |
| Collation.StarKeys | generate/generate.go:235-239 | a `<*` line ranks each of its characters on its own, in order |
| Collation.TokenKeys | generate/generate.go:240-244 | a `<` line ranks each of its tokens, without selectors, in order |
| Collation.RuleKeysFail | generate/generate.go:231-248 | the rules fail exactly when some line is neither skipped (empty, `#` or `&`) nor a `<` line; on failure the error is UnexpectedRuleLine of the first such line, every earlier line being skipped or a `<` line |
| Collation.RankTableMeaning | generate/generate.go:229-249 | exactly the listed keys are ranked; a key's rank is a 1-based position where it is listed, and it is listed at no later position |
| Collation.RanksFollowFileOrder | generate/generate.go:229-249 | a key listed once gets rank j+1 when it is the (j+1)-th key in file order |
| Collation.RankTableSnoc | generate/generate.go:237-238 | loop helper: ranking one more key gives it the next count |
| Collation.RankCharacters | generate/generate.go:235-239 | the `<*` loop extends the rank table with the line's characters and advances the count by their number |
| Collation.RankTokens | generate/generate.go:240-244 | the `<` loop extends the rank table with the line's tokens and advances the count by their number |
| Collation.RankRules | generate/generate.go:229-249 | the rule loop returns exactly RanksOf of the rule lines |
| Collation.CollationData | generate/generate.go:199-250 | returns NoEmojiCollation when there are no emoji rules, or else the rank table of the rules, or the first bad line's error |
| Collation.CollationOrderLongestPrefix | generate/generate.go:252-261 | the rank of an emoji is the rank of its longest prefix whose selector-free form is in the table, and -1 when no non-empty prefix is |
| Collation.CollationOrderIgnoresSelectors | generate/generate.go:252-261 | an emoji and its selector-free form get the same rank |
| Sorting.AdjacentSortedIsSorted | generate/generate.go:293-298 | ordered neighbours make an ordered sequence, for a transitive comparator |
| Sorting.SortedUnique | generate/generate.go:293-298 | two orderings of the same multiset that both respect an antisymmetric comparator are the same list, so the unstable sort's result is determined |
| Sorting.Insert | generate/generate.go:293-298 | inserting keeps the elements plus the new one and keeps neighbours ordered |
| Sorting.SortOf | generate/generate.go:293-298 | the sorted list is a permutation of the input with ordered neighbours |
| Sorting.SortOfMeaning | generate/generate.go:293-298 | the sorted list is a permutation in which every element may precede every later one, and it is the only such permutation |
| Sorting.SiftDown | generate/generate.go:293 | one insertion pass makes the prefix a[..i+1] ordered, permutes only that prefix, and leaves the suffix a[i+1..] unchanged |
| Sorting.SortFunc | generate/generate.go:293-298 | the in-place sort leaves the array equal to SortOf of its old contents |
| EmojiOrder.PrecedesMeaning | generate/generate.go:293-298 | e may precede f exactly when e's rank is smaller, or the ranks are equal and strings.Compare(e, f) <= 0 |
| EmojiOrder.CmpIsTotalOrder | generate/generate.go:293-298 | the comparator is 0 only for equal strings, flips sign when its arguments are swapped, and is transitive |
| EmojiOrder.SortedByRankThenText | generate/generate.go:293-298 | in the sorted emoji, every emoji has a smaller rank than every later one, or the same rank and does not come after it in lexicographic code-point order |
| Generate.KeepKeywordsMeaning | generate/generate.go:306 | a keyword is kept exactly when it is a keyword and not a substring of the name, and no keyword is added |
| Generate.KeepKeywordsAppend | generate/generate.go:306 | the filter works keyword by keyword, so the kept keywords keep their order |
| Generate.KeepKeywordsIdempotent | generate/generate.go:306 | filtering the kept keywords again drops nothing |
| Generate.EmptyKeywordDropped | generate/generate.go:306 | an empty keyword is never kept, because it occurs in every name |
| Generate.JoinEmpty | generate/generate.go:308 | joining non-empty words gives the empty string only for no words |
| Generate.PrintLine | generate/generate.go:307-311 | the prints of one iteration make exactly the line LineText describes |
| Generate.RenderLineShape | generate/generate.go:307-311 | the line is `emoji name` when no keyword survives the filter, and `emoji name kw1 kw2 ...` otherwise |
| Generate.StopMeaning | generate/generate.go:299-305 | the loop stops exactly at the first emoji whose selector-free form has no annotation, and reports that emoji |
| Generate.PrintedLength | generate/generate.go:299-311 | one line per emoji when nothing stops the loop, and one line for each emoji before the first unannotated one otherwise |
| Generate.PrintedLine | generate/generate.go:299-311 | the k-th printed line is the rendering of the k-th emoji with its annotation, and that emoji is annotated |
| Generate.StopsAtError | generate/generate.go:303-305 | once a prefix stops the loop, the whole list produces the same lines and the same error |
| Generate.SameLine | generate/generate.go:306-311 | helper of FilterInPlace: annotations with the same name and the same kept keywords print the same line |
| Generate.FilterInPlace | generate/generate.go:306 | writing the filtered keywords back into the map changes no line printed later, even for a repeated emoji |
| Generate.Render | generate/generate.go:299-313 | the render loop, including its in-place keyword filtering, prints exactly Printed and stops with exactly Stop |
| Generate.GenerateFollowsOrder | generate/generate.go:293-311 | the output is the rendering of any ordering of the emoji set that respects the comparator, whatever algorithm sorts |
| Generate.Generate | generate/generate.go:263-314 | the whole pipeline returns exactly GenerateOf of the decoded inputs, with each stage's error passed through |

## Left out

- Network access: the HTTP downloads and status checks (generate/generate.go:67-74, 91-98, 269-280) are not modelled. The data files arrive as lines.
- The zip archive (generate/generate.go:173-186, 200-208, 281-284) is not modelled.
- XML decoding (generate/generate.go:145-154, 209-217) is not modelled. Annotations arrive as `(cp, type, text)` records and the collations as `(type, cr)` pairs. So the I/O and parse errors of these stages are not modelled either.
- `bufio.Scanner` is not modelled: each file is already a sequence of lines. Its read errors and its 64 KiB line limit are left out.
- The flags, `main` and the report on standard error (generate/generate.go:20-25, 316-324) are not modelled.
- Printing is not modelled as output. `fmt.Print`/`fmt.Println` become a list of lines without their newlines. Lines printed before an error stay in the output, as they would on standard output.
- Error messages are not modelled. Each error keeps its kind and the offending text, but not Go's formatted message. The message at generate/generate.go:34 formats a nil error.
- Strings are sequences of Unicode code points, not UTF-8 bytes, so input that is not valid UTF-8 is not modelled. On valid UTF-8, `strings.Compare`'s byte order is the code-point order. `utf8.DecodeLastRuneInString` removes one code point.
- Go's 64-bit `int` is not modelled: ranks are at least -1 and at most the number of collation keys, so the rank difference in the comparator cannot overflow.
- The pattern-defeating quicksort behind `slices.SortFunc` is not modelled; an insertion sort stands in for it. `Sorting.SortedUnique` shows that every correct sort gives the same list with this comparator, so the choice of algorithm does not change the output.
- The emoji slice is not sorted in place: it is copied into an array and sorted there.
- Pointer identity in the annotations map is not modelled. Its `*emojiAnnotation` values become plain values, and the in-place keyword rewrite becomes a map update. This is equivalent because each key owns its own pointer and the filter is idempotent (`Generate.FilterInPlace`).
- Collation.CollationOrderIgnoresSelectors: requires that the rank table has no empty key. Without that, an emoji made only of U+FE0F would get the empty key's rank while its selector-free form gets -1. A table built from `root.xml` ranks the empty string only if some `<` token consists only of U+FE0F characters.
- EmojiData.ParseEmojiDataLine: the parser and the pipeline (`EmojiData.ParseLine`, `EmojiData.ParseEmojiDataLine`, `Generate.GenerateOf`) use the corrected range, which yields no emoji for a reversed range. The `make` panic at generate/generate.go:47 is modelled only by `EmojiData.RangeAsWritten` and `EmojiData.ReversedRangePanics` (see Findings).
- GoStrings.TrimSpace: its own contract states only the length and the two ends. The exact result is stated by `GoStrings.TrimLeftSpace` and `GoStrings.TrimRightSpace`.
- GoStrings.Fields: its contract states that fields are non-empty and free of separators. That nothing else is lost is stated by `GoStrings.FieldsDropOnlySeparators`. That the fields are the maximal runs is not stated.

## Findings

| source | as written | input that shows it | evidently intended | confidence | as-written member | corrected member |
|---|---|---|---|---|---|---|
| generate/generate.go:47 | the range slice is allocated with capacity `end-start+1`, which is negative when the range is written backwards by more than one, and `make` panics | a data line `1F3FF..1F3FB ; Emoji_Modifier` | an empty list of emoji for a reversed range, as the loop at lines 48-50 alone would give | not executed | EmojiData.ReversedRangePanics | EmojiData.RangeEmojis |
