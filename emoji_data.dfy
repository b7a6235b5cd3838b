/**
 * One line of the Unicode emoji data files (emoji-data.txt, emoji-sequences.txt,
 * emoji-zwj-sequences.txt): `code points ; tag ; ... # comment`, where the code points are a
 * range `START..END` or a space-separated list of hexadecimal code points.
 */
module EmojiData {
  import opened Results
  import opened GoStrings

  /** The value of a hexadecimal digit of either case. */
  function HexDigit(c: char): Option<nat>
  {
    if '0' <= c <= '9' then Some(c as nat - '0' as nat)
    else if 'a' <= c <= 'f' then Some(c as nat - 'a' as nat + 10)
    else if 'A' <= c <= 'F' then Some(c as nat - 'A' as nat + 10)
    else None
  }

  /** The value of a non-empty string of hexadecimal digits; None for anything else. */
  function HexValue(ds: string): Option<nat>
    decreases |ds|
  {
    if ds == [] then None
    else
      var d := HexDigit(ds[|ds| - 1]);
      if d.None? then None
      else if |ds| == 1 then d
      else match HexValue(ds[..|ds| - 1])
        case None => None
        case Some(v) => Some(16 * v + d.value)
  }

  /** 2^31: the values of a signed 32-bit integer lie in [-Int32Bound, Int32Bound). */
  const Int32Bound: int := 0x8000_0000

  /** strconv.ParseInt(s, 16, 32): an optional `+` or `-`, then one or more hexadecimal digits,
      whose value must fit in a signed 32-bit integer. */
  function ParseHex(s: string): (r: Option<int>)
    ensures r.Some? ==> -Int32Bound <= r.value < Int32Bound
    ensures s == [] ==> r.None?
  {
    if s == [] then None
    else
      var negative := s[0] == '-';
      var digits := if s[0] == '+' || s[0] == '-' then s[1..] else s;
      match HexValue(digits)
      case None => None
      case Some(u) =>
        var value: int := if negative then -(u as int) else u;
        if -Int32Bound <= value < Int32Bound then Some(value) else None
  }

  /** Every character of `ds` is a hexadecimal digit. */
  predicate AllHexDigits(ds: string)
  {
    forall k :: 0 <= k < |ds| ==> HexDigit(ds[k]).Some?
  }

  /** 16^n. */
  function Pow16(n: nat): nat
  {
    if n == 0 then 1 else 16 * Pow16(n - 1)
  }

  /** The value of a numeral read by place value: the first digit counts 16^(|ds|-1) times,
      the last once. */
  function Positional(ds: string): nat
    requires AllHexDigits(ds)
  {
    if ds == [] then 0 else HexDigit(ds[0]).value * Pow16(|ds| - 1) + Positional(ds[1..])
  }

  /** A digit worth `d` at place value 16p is worth 16 times what it is worth at place value p. */
  lemma ShiftDigit(d: nat, p: nat)
    ensures d * (16 * p) == 16 * (d * p)
  {
  }

  /** One more digit on the right multiplies the value read so far by 16. */
  lemma {:induction false} PositionalSnoc(ds: string, c: char)
    requires AllHexDigits(ds) && HexDigit(c).Some?
    ensures AllHexDigits(ds + [c])
    ensures Positional(ds + [c]) == 16 * Positional(ds) + HexDigit(c).value
    decreases |ds|
  {
    assert AllHexDigits(ds + [c]) by {
      forall k | 0 <= k < |ds + [c]| ensures HexDigit((ds + [c])[k]).Some? {
        if k < |ds| { assert (ds + [c])[k] == ds[k]; }
      }
    }
    if ds != [] {
      var t := ds + [c];
      assert t[0] == ds[0] && t[1..] == ds[1..] + [c];
      PositionalSnoc(ds[1..], c);
      var d0 := HexDigit(ds[0]).value;
      var p := Pow16(|ds| - 1);
      assert Pow16(|ds|) == 16 * p;
      assert Positional(t) == d0 * (16 * p) + Positional(ds[1..] + [c]);
      ShiftDigit(d0, p);
    }
  }

  /** HexValue accepts exactly the non-empty strings of hexadecimal digits, of either case and
      with any number of leading zeros, and gives their place value. */
  lemma {:induction false} HexValueMeaning(ds: string)
    ensures HexValue(ds).Some? <==> ds != [] && AllHexDigits(ds)
    ensures HexValue(ds).Some? ==> HexValue(ds).value == Positional(ds)
    decreases |ds|
  {
    if ds != [] {
      var init := ds[..|ds| - 1];
      var last := ds[|ds| - 1];
      assert ds == init + [last];
      HexValueMeaning(init);
      if HexDigit(last).Some? && AllHexDigits(init) {
        PositionalSnoc(init, last);
        if init == [] {
          assert ds == [last];
        }
      } else if HexDigit(last).Some? {
        assert !AllHexDigits(ds) by {
          var k :| 0 <= k < |init| && HexDigit(init[k]).None?;
          assert ds[k] == init[k];
        }
      }
    }
  }

  /** The digits of a numeral: `s` without a leading `+` or `-`. */
  function Unsigned(s: string): string
  {
    if s != [] && (s[0] == '+' || s[0] == '-') then s[1..] else s
  }

  /** -1 for a numeral with a leading `-`, 1 otherwise. */
  function SignOf(s: string): int
  {
    if s != [] && s[0] == '-' then -1 else 1
  }

  /** strconv.ParseInt(s, 16, 32) exactly: it accepts an optional sign followed by one or more
      hexadecimal digits of either case, leading zeros allowed, whose signed place value fits
      in 32 bits, and returns that value; it rejects everything else. */
  lemma ParseHexMeaning(s: string)
    ensures ParseHex(s).Some? <==>
      Unsigned(s) != [] && AllHexDigits(Unsigned(s))
      && -Int32Bound <= SignOf(s) * Positional(Unsigned(s)) < Int32Bound
    ensures ParseHex(s).Some? ==> ParseHex(s).value == SignOf(s) * Positional(Unsigned(s))
  {
    HexValueMeaning(Unsigned(s));
  }

  /** Leading zeros do not change a numeral's value: the data files pad code points to four
      digits (`0023`, `00A9`). */
  lemma LeadingZero(ds: string)
    requires AllHexDigits(ds)
    ensures AllHexDigits("0" + ds) && Positional("0" + ds) == Positional(ds)
  {
    assert ("0" + ds)[1..] == ds;
    assert forall k :: 0 < k < |"0" + ds| ==> ("0" + ds)[k] == ds[k - 1];
  }

  /** A code point as the data files write it, zero-padded to four digits, parses to its value. */
  lemma PaddedCodePoint()
    ensures ParseHex("0023") == Some(0x23)
  {
    ParseHexMeaning("0023");
    assert "0023" == "0" + "023" && "023" == "0" + "23";
    assert "23"[1..] == "3" && "3"[1..] == "";
    assert AllHexDigits("23");
    LeadingZero("23");
    LeadingZero("023");
    assert Positional("3") == 3;
    assert Positional("23") == 2 * Pow16(1) + 3;
  }

  /** A lower-case digit has the value of its upper-case form. */
  lemma LowerCaseDigit(c: char)
    requires 'a' <= c <= 'f'
    ensures HexDigit(c) == HexDigit((c as int - 32) as char) == Some(c as nat - 'a' as nat + 10)
  {
  }

  /** The upper-case hexadecimal digit of `d`. */
  function HexDigitChar(d: nat): char
    requires d < 16
  {
    if d < 10 then ('0' as int + d) as char else ('A' as int + d - 10) as char
  }

  /** A value written in upper-case hexadecimal without leading zeros. */
  function FormatHex(n: nat): (s: string)
    ensures s != []
    ensures forall k :: 0 <= k < |s| ==> HexDigit(s[k]).Some?
    decreases n
  {
    if n < 16 then [HexDigitChar(n)] else FormatHex(n / 16) + [HexDigitChar(n % 16)]
  }

  lemma {:induction false} HexValueOfFormat(n: nat)
    ensures HexValue(FormatHex(n)) == Some(n)
    decreases n
  {
    if n >= 16 {
      HexValueOfFormat(n / 16);
      var s := FormatHex(n);
      assert s[..|s| - 1] == FormatHex(n / 16);
    }
  }

  /** Every value below 2^31, written by FormatHex, parses back to itself. */
  lemma ParseHexOfFormat(n: nat)
    requires n < Int32Bound
    ensures ParseHex(FormatHex(n)) == Some(n)
  {
    HexValueOfFormat(n);
    assert HexDigit(FormatHex(n)[0]).Some?;
  }

  /** The code point `i` is a Unicode scalar value. */
  predicate IsScalarValue(i: int)
  {
    0 <= i < 0xD800 || 0xE000 <= i < 0x11_0000
  }

  /** Go's conversion of a rune to text: a rune that is not a scalar value becomes U+FFFD. */
  function Rune(i: int): char
  {
    if IsScalarValue(i) then i as char else '\U{FFFD}'
  }

  /** The emoji of the range `start..end`: one single-code-point emoji per value, ascending. */
  function RangeEmojis(start: int, end: int): (r: seq<string>)
    ensures |r| == if start <= end then end - start + 1 else 0
    ensures forall k :: 0 <= k < |r| ==> r[k] == [Rune(start + k)]
    decreases end - start
  {
    if start > end then [] else [[Rune(start)]] + RangeEmojis(start + 1, end)
  }

  /** The range branch as the source writes it: the slice is allocated with capacity
      `end - start + 1` (generate.go:47), and Go panics on a negative capacity; None stands for
      that panic. */
  function RangeAsWritten(start: int, end: int): Option<seq<string>>
  {
    if end - start + 1 < 0 then None else Some(RangeEmojis(start, end))
  }

  /** A range written backwards by more than one (`1F3FF..1F3FB`) crashes the source, where the
      corrected range yields no emoji. */
  lemma ReversedRangePanics(start: int, end: int)
    requires end < start - 1
    ensures RangeAsWritten(start, end) == None
    ensures RangeEmojis(start, end) == []
  {
  }

  /** The text of a space-separated code point list: Success with one character per field,
      or Failure with the first field that is not a hexadecimal number. */
  function ParseCodePoints(fields: seq<string>): (r: Result<string, string>)
    ensures r.Success? <==> forall k :: 0 <= k < |fields| ==> ParseHex(fields[k]).Some?
    ensures r.Success? ==> |r.value| == |fields|
    ensures r.Success? ==> forall k :: 0 <= k < |fields| ==> r.value[k] == Rune(ParseHex(fields[k]).value)
    ensures r.Failure? ==> exists k :: 0 <= k < |fields| && r.error == fields[k] && FirstBad(fields, k)
    decreases |fields|
  {
    if fields == [] then Success([])
    else match ParseHex(fields[0])
      case None =>
        assert FirstBad(fields, 0);
        Failure(fields[0])
      case Some(v) =>
        match ParseCodePoints(fields[1..])
        case Failure(f) =>
          var k :| 0 <= k < |fields| - 1 && f == fields[1..][k] && FirstBad(fields[1..], k);
          assert FirstBad(fields, k + 1);
          Failure(f)
        case Success(rest) => Success([Rune(v)] + rest)
  }

  /** `fields[k]` is the first field that is not a hexadecimal number. */
  predicate FirstBad(fields: seq<string>, k: int)
  {
    0 <= k < |fields| && ParseHex(fields[k]).None?
    && forall j :: 0 <= j < k ==> ParseHex(fields[j]).Some?
  }

  /** What one line yields: its emoji and its tag. */
  datatype ParsedLine = ParsedLine(emojis: seq<string>, tag: string)

  /** The line without its `#` comment. */
  function Body(line: string): string
  {
    CutAt(line, "#").before
  }

  /** The at most three `;`-separated fields of the body. */
  function Parts(line: string): (parts: seq<string>)
    ensures 1 <= |parts| <= 3
  {
    SplitN(Body(line), ';', 3)
  }

  /** The first field, trimmed: the code points. */
  function CodePointsText(line: string): string
  {
    TrimSpace(Parts(line)[0])
  }

  /** The second field, trimmed: the tag. */
  function Tag(line: string): string
    requires |Parts(line)| >= 2
  {
    TrimSpace(Parts(line)[1])
  }

  /** The code points split at the first `..`. */
  function RangeCut(line: string): Cut
  {
    CutAt(CodePointsText(line), "..")
  }

  /** The space-separated code points of a non-range line. */
  function CodePointFields(line: string): seq<string>
  {
    SplitOn(CodePointsText(line), ' ')
  }

  /** parseEmojiDataLine, as a function of the line. */
  function ParseLine(line: string): Result<ParsedLine, Error>
  {
    if Body(line) == [] then Success(ParsedLine([], []))
    else if |Parts(line)| < 2 then Failure(MalformedLine(Body(line)))
    else
      var range := RangeCut(line);
      if range.found then
        match ParseHex(range.before)
        case None => Failure(BadCodePoint(Body(line), range.before))
        case Some(start) =>
          match ParseHex(range.after)
          case None => Failure(BadCodePoint(Body(line), range.after))
          case Some(end) => Success(ParsedLine(RangeEmojis(start, end), Tag(line)))
      else
        match ParseCodePoints(CodePointFields(line))
        case Failure(field) => Failure(BadCodePoint(Body(line), field))
        case Success(emoji) => Success(ParsedLine([emoji], Tag(line)))
  }

  /** A line that is empty once its comment is cut off yields nothing, and no error. */
  lemma BlankLineYieldsNothing(line: string)
    requires Body(line) == []
    ensures ParseLine(line) == Success(ParsedLine([], []))
  {
  }

  /** A range line `S..E ; tag` yields E-S+1 single-code-point emoji S, S+1, ..., E (none when
      S > E) and the trimmed tag. */
  lemma RangeLineYields(line: string, start: int, end: int)
    requires Body(line) != [] && |Parts(line)| >= 2 && RangeCut(line).found
    requires ParseHex(RangeCut(line).before) == Some(start)
    requires ParseHex(RangeCut(line).after) == Some(end)
    ensures ParseLine(line).Success?
    ensures |ParseLine(line).value.emojis| == if start <= end then end - start + 1 else 0
    ensures forall k :: 0 <= k < |ParseLine(line).value.emojis| ==>
      ParseLine(line).value.emojis[k] == [Rune(start + k)]
    ensures ParseLine(line).value.tag == Tag(line)
  {
  }

  /** A line listing code points yields exactly one emoji: those code points, in order. */
  lemma ListLineYields(line: string)
    requires Body(line) != [] && |Parts(line)| >= 2 && !RangeCut(line).found
    requires forall k :: 0 <= k < |CodePointFields(line)| ==> ParseHex(CodePointFields(line)[k]).Some?
    ensures ParseLine(line).Success?
    ensures |ParseLine(line).value.emojis| == 1
    ensures var emoji := ParseLine(line).value.emojis[0];
      |emoji| == |CodePointFields(line)| &&
      forall k :: 0 <= k < |emoji| ==> emoji[k] == Rune(ParseHex(CodePointFields(line)[k]).value)
    ensures ParseLine(line).value.tag == Tag(line)
  {
  }

  /** A line is rejected exactly when it has fewer than two fields or a code point that is not
      a 32-bit hexadecimal number. */
  lemma ParseLineFails(line: string)
    ensures ParseLine(line).Failure? <==>
      Body(line) != [] &&
      (|Parts(line)| < 2 ||
       (RangeCut(line).found &&
        (ParseHex(RangeCut(line).before).None? || ParseHex(RangeCut(line).after).None?)) ||
       (!RangeCut(line).found &&
        exists k :: 0 <= k < |CodePointFields(line)| && ParseHex(CodePointFields(line)[k]).None?))
  {
    if Body(line) != [] && |Parts(line)| >= 2 && !RangeCut(line).found {
      var fields := CodePointFields(line);
      assert ParseLine(line).Failure? <==> ParseCodePoints(fields).Failure?;
    }
  }

  /** The range loop of parseEmojiDataLine: one single-code-point emoji per value. */
  method ExpandRange(start: int, end: int) returns (emojis: seq<string>)
    ensures emojis == RangeEmojis(start, end)
  {
    emojis := [];
    var i := start;
    while i <= end
      invariant start <= i <= end + 1 || (i == start && start > end)
      invariant |emojis| == i - start
      invariant forall k :: 0 <= k < |emojis| ==> emojis[k] == [Rune(start + k)]
      decreases end - i
    {
      emojis := emojis + [[Rune(i)]];
      i := i + 1;
    }
  }

  /** The list loop of parseEmojiDataLine: fills a rune array by index, stopping at the first
      field that does not parse. */
  method DecodeCodePoints(fields: seq<string>) returns (r: Result<string, string>)
    ensures r == ParseCodePoints(fields)
  {
    var emoji := new char[|fields|];
    for i := 0 to |fields|
      invariant forall k :: 0 <= k < i ==>
        ParseHex(fields[k]).Some? && emoji[k] == Rune(ParseHex(fields[k]).value)
    {
      var codePoint := ParseHex(fields[i]);
      if codePoint.None? {
        assert FirstBad(fields, i);
        return Failure(fields[i]);
      }
      emoji[i] := Rune(codePoint.value);
    }
    var text := emoji[..];
    ghost var expected := ParseCodePoints(fields);
    assert expected.Success? && |text| == |expected.value|;
    assert forall k :: 0 <= k < |text| ==> text[k] == expected.value[k];
    assert text == expected.value;
    return Success(text);
  }

  /** parseEmojiDataLine. */
  method ParseEmojiDataLine(line: string) returns (r: Result<ParsedLine, Error>)
    ensures r == ParseLine(line)
  {
    var body := CutAt(line, "#").before;
    if body == [] {
      return Success(ParsedLine([], []));
    }
    var parts := SplitN(body, ';', 3);
    if |parts| < 2 {
      return Failure(MalformedLine(body));
    }
    var codePoints := TrimSpace(parts[0]);
    var tag := TrimSpace(parts[1]);
    var range := CutAt(codePoints, "..");
    if range.found {
      var start := ParseHex(range.before);
      if start.None? {
        return Failure(BadCodePoint(body, range.before));
      }
      var end := ParseHex(range.after);
      if end.None? {
        return Failure(BadCodePoint(body, range.after));
      }
      var emojis := ExpandRange(start.value, end.value);
      return Success(ParsedLine(emojis, tag));
    }
    var emoji := DecodeCodePoints(SplitOn(codePoints, ' '));
    match emoji
    case Failure(field) =>
      return Failure(BadCodePoint(body, field));
    case Success(e) =>
      return Success(ParsedLine([e], tag));
  }
}
