/**
 * The emoji set: every emoji of the sequence and ZWJ-sequence files, except the standalone
 * skin-tone modifiers that emoji-data.txt tags `Emoji_Modifier`. The files arrive as lists of
 * lines.
 */
module EmojiSet {
  import opened Results
  import opened EmojiData

  /** The tag of the skin-tone modifiers in emoji-data.txt. */
  const ModifierTag: string := "Emoji_Modifier"

  /** Every line parsed, or the error of the first line that does not parse. */
  function ParseAll(lines: seq<string>): Result<seq<ParsedLine>, Error>
    decreases |lines|
  {
    if lines == [] then Success([])
    else
      match ParseAll(lines[..|lines| - 1])
      case Failure(e) => Failure(e)
      case Success(ps) =>
        match ParseLine(lines[|lines| - 1])
        case Failure(e) => Failure(e)
        case Success(p) => Success(ps + [p])
  }

  /** Parsing one more line extends the parsed prefix, or fails with that line's error. */
  lemma ParseAllSnoc(lines: seq<string>, i: nat, ps: seq<ParsedLine>, line: Result<ParsedLine, Error>)
    requires i < |lines| && ParseAll(lines[..i]) == Success(ps) && line == ParseLine(lines[i])
    ensures line.Success? ==> ParseAll(lines[..i + 1]) == Success(ps + [line.value])
    ensures line.Failure? ==> ParseAll(lines[..i + 1]) == Failure(line.error)
  {
    assert lines[..i + 1][..i] == lines[..i];
  }

  /** Once a prefix of the file fails to parse, the whole file fails with the same error. */
  lemma {:induction false} ParseAllStopsAtFailure(lines: seq<string>, i: nat)
    requires i <= |lines|
    requires ParseAll(lines[..i]).Failure?
    ensures ParseAll(lines) == ParseAll(lines[..i])
    decreases |lines| - i
  {
    if i < |lines| {
      assert lines[..i + 1][..i] == lines[..i];
      ParseAllStopsAtFailure(lines, i + 1);
    } else {
      assert lines[..i] == lines;
    }
  }

  /** The emoji of the lines tagged `Emoji_Modifier`, in file order. */
  function Modifiers(ps: seq<ParsedLine>): (ms: seq<string>)
    ensures forall m :: m in ms <==> exists k :: 0 <= k < |ps| && ps[k].tag == ModifierTag && m in ps[k].emojis
    decreases |ps|
  {
    if ps == [] then []
    else
      var init := ps[..|ps| - 1];
      var last := ps[|ps| - 1];
      assert forall k :: 0 <= k < |init| ==> init[k] == ps[k];
      Modifiers(init) + (if last.tag == ModifierTag then last.emojis else [])
  }

  /** The emoji of `es` that are not modifiers, in order. */
  function Keep(es: seq<string>, modifiers: set<string>): (r: seq<string>)
    ensures |r| <= |es|
    ensures forall e :: e in r <==> e in es && e !in modifiers
    decreases |es|
  {
    if es == [] then []
    else
      var last := es[|es| - 1];
      assert es == es[..|es| - 1] + [last];
      Keep(es[..|es| - 1], modifiers) + (if last in modifiers then [] else [last])
  }

  /** Keep filters element by element: it distributes over concatenation. */
  lemma {:induction false} KeepAppend(a: seq<string>, b: seq<string>, modifiers: set<string>)
    ensures Keep(a + b, modifiers) == Keep(a, modifiers) + Keep(b, modifiers)
    decreases |b|
  {
    if b == [] {
      assert a + b == a;
    } else {
      var init := b[..|b| - 1];
      assert (a + b)[..|a + b| - 1] == a + init;
      KeepAppend(a, init, modifiers);
    }
  }

  /** The emoji of all lines, in file order. */
  function AllEmojis(ps: seq<ParsedLine>): (es: seq<string>)
    ensures forall e :: e in es <==> exists k :: 0 <= k < |ps| && e in ps[k].emojis
    decreases |ps|
  {
    if ps == [] then []
    else
      var init := ps[..|ps| - 1];
      assert forall k :: 0 <= k < |init| ==> init[k] == ps[k];
      AllEmojis(init) + ps[|ps| - 1].emojis
  }

  /** What emojisInFile keeps of a parsed file: line by line, the emoji that are not modifiers. */
  function KeptEmojis(ps: seq<ParsedLine>, modifiers: set<string>): seq<string>
    decreases |ps|
  {
    if ps == [] then []
    else KeptEmojis(ps[..|ps| - 1], modifiers) + Keep(ps[|ps| - 1].emojis, modifiers)
  }

  /** Filtering line by line is filtering the whole file: the kept emoji are the non-modifier
      emoji of the file, in file order. */
  lemma {:induction false} KeptEmojisInOrder(ps: seq<ParsedLine>, modifiers: set<string>)
    ensures KeptEmojis(ps, modifiers) == Keep(AllEmojis(ps), modifiers)
    decreases |ps|
  {
    if ps != [] {
      var init := ps[..|ps| - 1];
      KeptEmojisInOrder(init, modifiers);
      KeepAppend(AllEmojis(init), ps[|ps| - 1].emojis, modifiers);
    }
  }

  /** emojiModifiers, as a function of the lines of emoji-data.txt. */
  function ModifiersOf(lines: seq<string>): Result<seq<string>, Error>
  {
    match ParseAll(lines)
    case Failure(e) => Failure(e)
    case Success(ps) => Success(Modifiers(ps))
  }

  /** emojisInFile, as a function of the lines of one file. */
  function EmojisOf(lines: seq<string>, modifiers: set<string>): Result<seq<string>, Error>
  {
    match ParseAll(lines)
    case Failure(e) => Failure(e)
    case Success(ps) => Success(KeptEmojis(ps, modifiers))
  }

  /** emojis, as a function of the lines of the three files. */
  function EmojiSetOf(dataLines: seq<string>, sequenceLines: seq<string>, zwjLines: seq<string>)
    : Result<seq<string>, Error>
  {
    match ModifiersOf(dataLines)
    case Failure(e) => Failure(e)
    case Success(ms) =>
      var modifiers := set m | m in ms;
      match EmojisOf(sequenceLines, modifiers)
      case Failure(e) => Failure(e)
      case Success(sequences) =>
        match EmojisOf(zwjLines, modifiers)
        case Failure(e) => Failure(e)
        case Success(zwjSequences) => Success(sequences + zwjSequences)
  }

  /** The built set holds no modifier, and it is exactly the non-modifier emoji of the sequence
      file, in order, followed by those of the ZWJ-sequence file. */
  lemma EmojiSetContents(dataLines: seq<string>, sequenceLines: seq<string>, zwjLines: seq<string>)
    requires EmojiSetOf(dataLines, sequenceLines, zwjLines).Success?
    ensures ParseAll(dataLines).Success? && ParseAll(sequenceLines).Success? && ParseAll(zwjLines).Success?
    ensures var modifiers := set m | m in Modifiers(ParseAll(dataLines).value);
      EmojiSetOf(dataLines, sequenceLines, zwjLines).value ==
        Keep(AllEmojis(ParseAll(sequenceLines).value), modifiers) +
        Keep(AllEmojis(ParseAll(zwjLines).value), modifiers)
    ensures forall e :: e in EmojiSetOf(dataLines, sequenceLines, zwjLines).value ==>
      e !in Modifiers(ParseAll(dataLines).value)
  {
    var modifiers := set m | m in Modifiers(ParseAll(dataLines).value);
    KeptEmojisInOrder(ParseAll(sequenceLines).value, modifiers);
    KeptEmojisInOrder(ParseAll(zwjLines).value, modifiers);
  }

  /** emojiModifiers: collects the emoji of every `Emoji_Modifier` line. */
  method EmojiModifiers(lines: seq<string>) returns (r: Result<seq<string>, Error>)
    ensures r == ModifiersOf(lines)
  {
    var modifiers: seq<string> := [];
    ghost var parsed: seq<ParsedLine> := [];
    for i := 0 to |lines|
      invariant ParseAll(lines[..i]) == Success(parsed)
      invariant modifiers == Modifiers(parsed)
    {
      var line := ParseEmojiDataLine(lines[i]);
      ParseAllSnoc(lines, i, parsed, line);
      if line.Failure? {
        ParseAllStopsAtFailure(lines, i + 1);
        return Failure(line.error);
      }
      assert (parsed + [line.value])[..|parsed|] == parsed;
      parsed := parsed + [line.value];
      if line.value.tag == ModifierTag {
        modifiers := modifiers + line.value.emojis;
      }
    }
    assert lines[..|lines|] == lines;
    return Success(modifiers);
  }

  /** Filtering one more emoji keeps it exactly when it is not a modifier. */
  lemma KeepSnoc(es: seq<string>, j: nat, modifiers: set<string>)
    requires j < |es|
    ensures Keep(es[..j + 1], modifiers) ==
      Keep(es[..j], modifiers) + (if es[j] in modifiers then [] else [es[j]])
  {
    assert es[..j + 1][..j] == es[..j];
  }

  /** The inner loop of emojisInFile: appends the emoji of one line that are not modifiers. */
  method AppendKept(emojis: seq<string>, lineEmojis: seq<string>, modifiers: set<string>)
    returns (r: seq<string>)
    ensures r == emojis + Keep(lineEmojis, modifiers)
  {
    r := emojis;
    for j := 0 to |lineEmojis|
      invariant r == emojis + Keep(lineEmojis[..j], modifiers)
    {
      KeepSnoc(lineEmojis, j, modifiers);
      if lineEmojis[j] !in modifiers {
        r := r + [lineEmojis[j]];
      }
    }
    assert lineEmojis[..|lineEmojis|] == lineEmojis;
  }

  /** emojisInFile: the emoji of every line that are not modifiers. */
  method EmojisInFile(lines: seq<string>, modifiers: set<string>) returns (r: Result<seq<string>, Error>)
    ensures r == EmojisOf(lines, modifiers)
  {
    var emojis: seq<string> := [];
    ghost var parsed: seq<ParsedLine> := [];
    for i := 0 to |lines|
      invariant ParseAll(lines[..i]) == Success(parsed)
      invariant emojis == KeptEmojis(parsed, modifiers)
    {
      var line := ParseEmojiDataLine(lines[i]);
      ParseAllSnoc(lines, i, parsed, line);
      if line.Failure? {
        ParseAllStopsAtFailure(lines, i + 1);
        return Failure(line.error);
      }
      emojis := AppendKept(emojis, line.value.emojis, modifiers);
      assert (parsed + [line.value])[..|parsed|] == parsed;
      parsed := parsed + [line.value];
    }
    assert lines[..|lines|] == lines;
    return Success(emojis);
  }

  /** The loop of emojis that puts each modifier into the `modifiers` set. */
  method ModifierSet(ms: seq<string>) returns (modifiers: set<string>)
    ensures modifiers == set m | m in ms
  {
    modifiers := {};
    for i := 0 to |ms|
      invariant forall m :: m in modifiers <==> m in ms[..i]
    {
      assert ms[..i + 1] == ms[..i] + [ms[i]];
      modifiers := modifiers + {ms[i]};
    }
    assert ms[..|ms|] == ms;
  }

  /** emojis: builds the modifier set, then concatenates the kept sequence and ZWJ-sequence
      emoji. */
  method Emojis(dataLines: seq<string>, sequenceLines: seq<string>, zwjLines: seq<string>)
    returns (r: Result<seq<string>, Error>)
    ensures r == EmojiSetOf(dataLines, sequenceLines, zwjLines)
  {
    var modifiersSlice := EmojiModifiers(dataLines);
    if modifiersSlice.Failure? {
      return Failure(modifiersSlice.error);
    }
    var modifiers := ModifierSet(modifiersSlice.value);
    var sequences := EmojisInFile(sequenceLines, modifiers);
    if sequences.Failure? {
      return Failure(sequences.error);
    }
    var zwjSequences := EmojisInFile(zwjLines, modifiers);
    if zwjSequences.Failure? {
      return Failure(zwjSequences.error);
    }
    return Success(sequences.value + zwjSequences.value);
  }
}
