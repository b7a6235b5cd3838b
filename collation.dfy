/**
 * The emoji collation of CLDR (the `emoji` collation of common/collation/root.xml), read into
 * a rank table, and the longest-prefix rank lookup that orders the emoji.
 */
module Collation {
  import opened Results
  import opened GoStrings

  /** U+FE0F VARIATION SELECTOR-16, which asks for emoji presentation. */
  const PresentationSelector: char := '\U{FE0F}'

  /** removePresentationSelector: `s` with every U+FE0F deleted. */
  function RemovePresentationSelector(s: string): string
    decreases |s|
  {
    if s == [] then []
    else
      var last := s[|s| - 1];
      RemovePresentationSelector(s[..|s| - 1]) + (if last == PresentationSelector then [] else [last])
  }

  /** No U+FE0F is left, nothing is added, and a string without U+FE0F is left as it is. */
  lemma {:induction false} RemovePresentationSelectorMeaning(s: string)
    ensures PresentationSelector !in RemovePresentationSelector(s)
    ensures |RemovePresentationSelector(s)| <= |s|
    ensures PresentationSelector !in s ==> RemovePresentationSelector(s) == s
    decreases |s|
  {
    if s != [] {
      RemovePresentationSelectorMeaning(s[..|s| - 1]);
      assert s == s[..|s| - 1] + [s[|s| - 1]];
    }
  }

  /** Removing the selectors twice removes nothing more. */
  lemma RemovePresentationSelectorIdempotent(s: string)
    ensures RemovePresentationSelector(RemovePresentationSelector(s)) == RemovePresentationSelector(s)
  {
    RemovePresentationSelectorMeaning(s);
    RemovePresentationSelectorMeaning(RemovePresentationSelector(s));
  }

  /** The selectors are removed character by character: removal distributes over
      concatenation, and keeps every other character in place. */
  lemma {:induction false} RemovePresentationSelectorAppend(a: string, b: string)
    ensures RemovePresentationSelector(a + b) == RemovePresentationSelector(a) + RemovePresentationSelector(b)
    decreases |b|
  {
    if b == [] {
      assert a + b == a;
    } else {
      var init := b[..|b| - 1];
      assert (a + b)[..|a + b| - 1] == a + init;
      RemovePresentationSelectorAppend(a, init);
    }
  }

  /** One `<collation type=".."><cr>..</cr></collation>` element of root.xml. */
  datatype CollationElement = CollationElement(kind: string, rules: string)

  /** The `type` of the emoji collation. */
  const EmojiKind: string := "emoji"

  /** The characters that separate the keys of a `<` rule line. */
  const RuleSeparators: set<char> := {' ', '<', '=', '\''}

  /** `collations[k]` is the first emoji collation. */
  predicate FirstEmoji(collations: seq<CollationElement>, k: int)
  {
    0 <= k < |collations| && collations[k].kind == EmojiKind
    && forall j :: 0 <= j < k ==> collations[j].kind != EmojiKind
  }

  /** The rules of the first emoji collation, or empty when there is none. */
  function EmojiRules(collations: seq<CollationElement>): (rules: string)
    ensures (forall k :: 0 <= k < |collations| ==> collations[k].kind != EmojiKind) ==> rules == []
    ensures forall k :: FirstEmoji(collations, k) ==> rules == collations[k].rules
    decreases |collations|
  {
    if collations == [] then []
    else if collations[0].kind == EmojiKind then collations[0].rules
    else
      var rest := collations[1..];
      assert forall k :: 0 < k < |collations| ==> rest[k - 1] == collations[k];
      assert forall k :: FirstEmoji(collations, k) ==> FirstEmoji(rest, k - 1);
      EmojiRules(rest)
  }

  /** The keys of a `<*` line: each character on its own, selectors included. */
  function StarKeys(chars: string): (keys: seq<string>)
    ensures |keys| == |chars|
    ensures forall k :: 0 <= k < |keys| ==> keys[k] == [chars[k]]
    decreases |chars|
  {
    if chars == [] then [] else StarKeys(chars[..|chars| - 1]) + [[chars[|chars| - 1]]]
  }

  /** The keys of a `<` line: its tokens, each without selectors. */
  function TokenKeys(tokens: seq<string>): (keys: seq<string>)
    ensures |keys| == |tokens|
    ensures forall k :: 0 <= k < |keys| ==> keys[k] == RemovePresentationSelector(tokens[k])
    decreases |tokens|
  {
    if tokens == [] then []
    else TokenKeys(tokens[..|tokens| - 1]) + [RemovePresentationSelector(tokens[|tokens| - 1])]
  }

  /** The line is skipped: empty, a `#` comment or an `&` reset. */
  predicate Skipped(line: string)
  {
    line == [] || HasPrefix(line, "#") || HasPrefix(line, "&")
  }

  /** The keys one rule line ranks, in order, or the error for a line of unknown shape. */
  function LineKeys(line: string): Result<seq<string>, Error>
  {
    if Skipped(line) then Success([])
    else if HasPrefix(line, "<*") then Success(StarKeys(line[2..]))
    else if HasPrefix(line, "<") then Success(TokenKeys(Fields(line[1..], RuleSeparators)))
    else Failure(UnexpectedRuleLine(line))
  }

  /** The keys of all rule lines, in file order, or the error of the first bad line. */
  function RuleKeys(lines: seq<string>): Result<seq<string>, Error>
    decreases |lines|
  {
    if lines == [] then Success([])
    else
      match RuleKeys(lines[..|lines| - 1])
      case Failure(e) => Failure(e)
      case Success(keys) =>
        match LineKeys(lines[|lines| - 1])
        case Failure(e) => Failure(e)
        case Success(more) => Success(keys + more)
  }

  /** `lines[k]` is the first rule line of unknown shape. */
  predicate FirstBadRule(lines: seq<string>, k: int)
  {
    0 <= k < |lines| && LineKeys(lines[k]).Failure?
    && forall j :: 0 <= j < k ==> LineKeys(lines[j]).Success?
  }

  /** The rule lines fail exactly when one of them has an unknown shape, and the error names
      the first such line. */
  lemma {:induction false} RuleKeysFail(lines: seq<string>)
    ensures RuleKeys(lines).Failure? <==> exists k :: 0 <= k < |lines| && LineKeys(lines[k]).Failure?
    ensures RuleKeys(lines).Failure? ==>
      exists k :: FirstBadRule(lines, k) && RuleKeys(lines).error == UnexpectedRuleLine(lines[k])
    decreases |lines|
  {
    if lines != [] {
      var init := lines[..|lines| - 1];
      RuleKeysFail(init);
      assert forall k :: 0 <= k < |init| ==> init[k] == lines[k];
      if RuleKeys(init).Failure? {
        var k :| FirstBadRule(init, k) && RuleKeys(init).error == UnexpectedRuleLine(init[k]);
        assert FirstBadRule(lines, k);
      } else if LineKeys(lines[|lines| - 1]).Failure? {
        assert forall j :: 0 <= j < |init| ==> LineKeys(init[j]).Success?;
        assert FirstBadRule(lines, |lines| - 1);
      } else {
        assert forall k :: 0 <= k < |lines| ==> LineKeys(lines[k]).Success? by {
          forall k | 0 <= k < |lines| ensures LineKeys(lines[k]).Success? {
            if k < |init| {
              assert LineKeys(init[k]).Success?;
            }
          }
        }
      }
    }
  }

  /** The rank table of `keys`: each key is given the rank of its last position, counting
      positions from 1. */
  function RankTable(keys: seq<string>): map<string, int>
    decreases |keys|
  {
    if keys == [] then map[] else RankTable(keys[..|keys| - 1])[keys[|keys| - 1] := |keys|]
  }

  /** Every key listed is ranked and nothing else is; a key's rank is a position where it is
      listed, and it is listed at no later position. */
  lemma {:induction false} RankTableMeaning(keys: seq<string>)
    ensures RankTable(keys).Keys == set key | key in keys
    ensures forall key :: key in RankTable(keys) ==>
      1 <= RankTable(keys)[key] <= |keys| && keys[RankTable(keys)[key] - 1] == key
    ensures forall key, j :: key in RankTable(keys) && RankTable(keys)[key] <= j < |keys| ==> keys[j] != key
    decreases |keys|
  {
    if keys != [] {
      var init := keys[..|keys| - 1];
      RankTableMeaning(init);
      assert keys == init + [keys[|keys| - 1]];
    }
  }

  /** Keys that occur once are ranked 1, 2, 3, ... consecutively in file order. */
  lemma RanksFollowFileOrder(keys: seq<string>, j: int)
    requires 0 <= j < |keys|
    requires forall i :: 0 <= i < |keys| && i != j ==> keys[i] != keys[j]
    ensures keys[j] in RankTable(keys) && RankTable(keys)[keys[j]] == j + 1
  {
    RankTableMeaning(keys);
  }

  /** The rank table of the rule lines, or the error of the first bad line. */
  function RanksOf(lines: seq<string>): Result<map<string, int>, Error>
  {
    match RuleKeys(lines)
    case Failure(e) => Failure(e)
    case Success(keys) => Success(RankTable(keys))
  }

  /** collationData after the XML is decoded: the rank table of the first emoji collation. */
  function CollationTable(collations: seq<CollationElement>): Result<map<string, int>, Error>
  {
    var rules := EmojiRules(collations);
    if rules == [] then Failure(NoEmojiCollation) else RanksOf(SplitOn(rules, '\n'))
  }

  /** One more rule line extends the keys read so far, or fails with that line's error. */
  lemma RuleKeysSnoc(lines: seq<string>, i: nat, keys: seq<string>)
    requires i < |lines| && RuleKeys(lines[..i]) == Success(keys)
    ensures LineKeys(lines[i]).Success? ==> RuleKeys(lines[..i + 1]) == Success(keys + LineKeys(lines[i]).value)
    ensures LineKeys(lines[i]).Failure? ==> RuleKeys(lines[..i + 1]) == Failure(LineKeys(lines[i]).error)
  {
    assert lines[..i + 1][..i] == lines[..i];
  }

  /** Once a prefix of the rules fails, the whole rule text fails with the same error. */
  lemma {:induction false} RuleKeysStopAtFailure(lines: seq<string>, i: nat)
    requires i <= |lines| && RuleKeys(lines[..i]).Failure?
    ensures RuleKeys(lines) == RuleKeys(lines[..i])
    decreases |lines| - i
  {
    if i < |lines| {
      assert lines[..i + 1][..i] == lines[..i];
      RuleKeysStopAtFailure(lines, i + 1);
    } else {
      assert lines[..i] == lines;
    }
  }

  /** Ranking one more key gives it the next rank. */
  lemma RankTableSnoc(keys: seq<string>, key: string)
    ensures RankTable(keys + [key]) == RankTable(keys)[key := |keys| + 1]
  {
    assert (keys + [key])[..|keys|] == keys;
  }

  /** The keys of a `<*` line grow by one character at a time. */
  lemma StarKeysSnoc(chars: string, j: nat)
    requires j < |chars|
    ensures StarKeys(chars[..j + 1]) == StarKeys(chars[..j]) + [[chars[j]]]
  {
    assert chars[..j + 1][..j] == chars[..j];
  }

  /** The keys of a `<` line grow by one token at a time. */
  lemma TokenKeysSnoc(tokens: seq<string>, j: nat)
    requires j < |tokens|
    ensures TokenKeys(tokens[..j + 1]) == TokenKeys(tokens[..j]) + [RemovePresentationSelector(tokens[j])]
  {
    assert tokens[..j + 1][..j] == tokens[..j];
  }

  /** The `<*` branch of collationData: each character gets the next rank. */
  method RankCharacters(collation: map<string, int>, count: int, ghost keys: seq<string>, chars: string)
    returns (collation': map<string, int>, count': int)
    requires collation == RankTable(keys) && count == |keys| + 1
    ensures collation' == RankTable(keys + StarKeys(chars)) && count' == count + |chars|
  {
    collation', count' := collation, count;
    ghost var ranked := keys;
    for j := 0 to |chars|
      invariant ranked == keys + StarKeys(chars[..j])
      invariant collation' == RankTable(ranked) && count' == |ranked| + 1
    {
      StarKeysSnoc(chars, j);
      RankTableSnoc(ranked, [chars[j]]);
      collation' := collation'[[chars[j]] := count'];
      count' := count' + 1;
      ranked := ranked + [[chars[j]]];
    }
    assert chars[..|chars|] == chars;
  }

  /** The `<` branch of collationData: each token, without selectors, gets the next rank. */
  method RankTokens(collation: map<string, int>, count: int, ghost keys: seq<string>, tokens: seq<string>)
    returns (collation': map<string, int>, count': int)
    requires collation == RankTable(keys) && count == |keys| + 1
    ensures collation' == RankTable(keys + TokenKeys(tokens)) && count' == count + |tokens|
  {
    collation', count' := collation, count;
    ghost var ranked := keys;
    for j := 0 to |tokens|
      invariant ranked == keys + TokenKeys(tokens[..j])
      invariant collation' == RankTable(ranked) && count' == |ranked| + 1
    {
      var key := RemovePresentationSelector(tokens[j]);
      TokenKeysSnoc(tokens, j);
      RankTableSnoc(ranked, key);
      collation' := collation'[key := count'];
      count' := count' + 1;
      ranked := ranked + [key];
    }
    assert tokens[..|tokens|] == tokens;
  }

  /** The first loop of collationData: the rules of the first emoji collation. */
  method FindEmojiCollation(collations: seq<CollationElement>) returns (rules: string)
    ensures rules == EmojiRules(collations)
  {
    rules := [];
    var i := 0;
    while i < |collations|
      invariant 0 <= i <= |collations|
      invariant forall k :: 0 <= k < i ==> collations[k].kind != EmojiKind
      invariant rules == []
    {
      if collations[i].kind == EmojiKind {
        rules := collations[i].rules;
        assert FirstEmoji(collations, i);
        return;
      }
      i := i + 1;
    }
  }

  /** The second loop of collationData: ranks the keys of the rule lines with a counter that
      starts at 1, and stops at the first line of unknown shape. */
  method RankRules(lines: seq<string>) returns (r: Result<map<string, int>, Error>)
    ensures r == RanksOf(lines)
  {
    var collation: map<string, int> := map[];
    var count := 1;
    ghost var keys: seq<string> := [];
    for n := 0 to |lines|
      invariant RuleKeys(lines[..n]) == Success(keys)
      invariant collation == RankTable(keys) && count == |keys| + 1
    {
      var line := lines[n];
      RuleKeysSnoc(lines, n, keys);
      if line == [] || HasPrefix(line, "#") || HasPrefix(line, "&") {
        assert keys + [] == keys;
        continue;
      }
      if HasPrefix(line, "<*") {
        collation, count := RankCharacters(collation, count, keys, line[2..]);
        keys := keys + StarKeys(line[2..]);
      } else if HasPrefix(line, "<") {
        var tokens := Fields(line[1..], RuleSeparators);
        collation, count := RankTokens(collation, count, keys, tokens);
        keys := keys + TokenKeys(tokens);
      } else {
        RuleKeysStopAtFailure(lines, n + 1);
        return Failure(UnexpectedRuleLine(line));
      }
    }
    assert lines[..|lines|] == lines;
    return Success(collation);
  }

  /** collationData: finds the emoji collation, then ranks its rule lines. */
  method CollationData(collations: seq<CollationElement>) returns (r: Result<map<string, int>, Error>)
    ensures r == CollationTable(collations)
  {
    var emojiCollation := FindEmojiCollation(collations);
    if emojiCollation == [] {
      return Failure(NoEmojiCollation);
    }
    r := RankRules(SplitOn(emojiCollation, '\n'));
  }

  /** The prefix of `e` of length k, without selectors, is a key of the table. */
  predicate MatchesAt(e: string, table: map<string, int>, k: int)
  {
    1 <= k <= |e| && RemovePresentationSelector(e[..k]) in table
  }

  /** The prefix of length k is the longest prefix of `e` that matches. */
  predicate LongestMatch(e: string, table: map<string, int>, k: int)
  {
    MatchesAt(e, table, k) && forall j :: k < j <= |e| ==> !MatchesAt(e, table, j)
  }

  /** collationOrder: looks up ever shorter prefixes of `e`, without selectors, and returns the
      first rank found, or -1. */
  function CollationOrder(e: string, table: map<string, int>): int
    decreases |e|
  {
    if e == [] then -1
    else if RemovePresentationSelector(e) in table then table[RemovePresentationSelector(e)]
    else CollationOrder(e[..|e| - 1], table)
  }

  /** The rank of `e` is the rank of its longest prefix whose selector-free form is ranked, or
      -1 when no non-empty prefix is. */
  lemma {:induction false} CollationOrderLongestPrefix(e: string, table: map<string, int>)
    ensures (forall k :: 1 <= k <= |e| ==> !MatchesAt(e, table, k)) ==> CollationOrder(e, table) == -1
    ensures forall k :: LongestMatch(e, table, k) ==>
      CollationOrder(e, table) == table[RemovePresentationSelector(e[..k])]
    decreases |e|
  {
    if e != [] {
      assert e[..|e|] == e;
      if RemovePresentationSelector(e) in table {
        assert MatchesAt(e, table, |e|);
      } else {
        var init := e[..|e| - 1];
        CollationOrderLongestPrefix(init, table);
        assert !MatchesAt(e, table, |e|);
        forall k | 1 <= k <= |init| ensures MatchesAt(init, table, k) == MatchesAt(e, table, k) {
          assert init[..k] == e[..k];
        }
        forall k | LongestMatch(e, table, k)
          ensures CollationOrder(e, table) == table[RemovePresentationSelector(e[..k])]
        {
          assert LongestMatch(init, table, k);
          assert init[..k] == e[..k];
        }
      }
    }
  }

  /** An emoji and its form without selectors get the same rank: the fully-qualified and the
      unqualified spelling of an emoji sort together, as long as no key is empty. */
  lemma {:induction false} CollationOrderIgnoresSelectors(e: string, table: map<string, int>)
    requires [] !in table
    ensures CollationOrder(e, table) == CollationOrder(RemovePresentationSelector(e), table)
    decreases |e|
  {
    if e != [] {
      var init := e[..|e| - 1];
      var last := e[|e| - 1];
      var stripped := RemovePresentationSelector(e);
      CollationOrderIgnoresSelectors(init, table);
      RemovePresentationSelectorIdempotent(e);
      if last == PresentationSelector {
        assert stripped == RemovePresentationSelector(init);
      } else {
        assert stripped == RemovePresentationSelector(init) + [last];
        assert stripped[..|stripped| - 1] == RemovePresentationSelector(init);
      }
    }
  }
}
