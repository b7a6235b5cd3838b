/**
 * The generator: sorts the emoji set by the emoji collation and renders one line per emoji,
 * `emoji name keywords`, dropping the keywords that already occur in the name.
 */
module Generate {
  import opened Results
  import opened GoStrings
  import opened EmojiSet
  import opened Annotations
  import opened Collation
  import opened Sorting
  import opened EmojiOrder

  /** The keywords that are not substrings of the name, in their original order (the result of
      slices.DeleteFunc with strings.Contains(name, keyword) as the predicate). */
  function KeepKeywords(keywords: seq<string>, name: string): seq<string>
    decreases |keywords|
  {
    if keywords == [] then []
    else
      var last := keywords[|keywords| - 1];
      KeepKeywords(keywords[..|keywords| - 1], name) + (if Contains(name, last) then [] else [last])
  }

  /** A keyword is kept exactly when it is one of the keywords and no substring of the name;
      filtering never adds keywords. */
  lemma {:induction false} KeepKeywordsMeaning(keywords: seq<string>, name: string)
    ensures |KeepKeywords(keywords, name)| <= |keywords|
    ensures forall k :: k in KeepKeywords(keywords, name) <==> k in keywords && !Contains(name, k)
    decreases |keywords|
  {
    if keywords != [] {
      var last := keywords[|keywords| - 1];
      KeepKeywordsMeaning(keywords[..|keywords| - 1], name);
      assert keywords == keywords[..|keywords| - 1] + [last];
    }
  }

  /** The filter works keyword by keyword, so the kept keywords keep their relative order. */
  lemma {:induction false} KeepKeywordsAppend(a: seq<string>, b: seq<string>, name: string)
    ensures KeepKeywords(a + b, name) == KeepKeywords(a, name) + KeepKeywords(b, name)
    decreases |b|
  {
    if b == [] {
      assert a + b == a;
    } else {
      var init := b[..|b| - 1];
      assert (a + b)[..|a + b| - 1] == a + init;
      KeepKeywordsAppend(a, init, name);
    }
  }

  /** Filtering the kept keywords again drops nothing more. */
  lemma {:induction false} KeepKeywordsIdempotent(keywords: seq<string>, name: string)
    ensures KeepKeywords(KeepKeywords(keywords, name), name) == KeepKeywords(keywords, name)
    decreases |keywords|
  {
    if keywords != [] {
      var init := keywords[..|keywords| - 1];
      var last := keywords[|keywords| - 1];
      KeepKeywordsIdempotent(init, name);
      var tail := if Contains(name, last) then [] else [last];
      KeepKeywordsAppend(KeepKeywords(init, name), tail, name);
      if !Contains(name, last) {
        assert [last][..0] == [];
      }
    }
  }

  /** The empty string occurs in every name, so an empty keyword is never kept. */
  lemma EmptyKeywordDropped(keywords: seq<string>, name: string)
    ensures [] !in KeepKeywords(keywords, name)
  {
    KeepKeywordsMeaning(keywords, name);
    ContainsMeaning(name, []);
    assert OccursAt(name, [], 0);
  }

  /** Joining words, none of them empty, gives the empty string only for no words at all. */
  lemma JoinEmpty(words: seq<string>, sep: string)
    requires [] !in words
    ensures Join(words, sep) == [] <==> words == []
  {
    if |words| > 1 {
      assert words[0] in words;
    } else if |words| == 1 {
      assert words[0] in words;
    }
  }

  /** The line printed for `emoji`: the emoji, a space and its name, then a space and the
      kept keywords joined by spaces when the join is not empty. */
  function RenderLine(emoji: string, a: Annotation): string
  {
    LineText(emoji, a.name, KeepKeywords(a.keywords, a.name))
  }

  /** The emoji, a space and the name, then a space and the keywords joined by spaces when the
      join is not empty. */
  function LineText(emoji: string, name: string, keywords: seq<string>): string
  {
    var joined := Join(keywords, " ");
    emoji + " " + name + (if joined != [] then " " + joined else [])
  }

  /** The prints of one loop iteration of generate. */
  method PrintLine(emoji: string, name: string, keywords: seq<string>) returns (line: string)
    ensures line == LineText(emoji, name, keywords)
  {
    line := emoji + " " + name;
    var joined := Join(keywords, " ");
    if joined != [] {
      line := line + " " + joined;
    }
  }

  /** The keywords part is printed exactly when some keyword is kept. */
  lemma RenderLineShape(emoji: string, a: Annotation)
    ensures KeepKeywords(a.keywords, a.name) == [] ==> RenderLine(emoji, a) == emoji + " " + a.name
    ensures KeepKeywords(a.keywords, a.name) != [] ==>
      RenderLine(emoji, a) == emoji + " " + a.name + " " + Join(KeepKeywords(a.keywords, a.name), " ")
  {
    EmptyKeywordDropped(a.keywords, a.name);
    JoinEmpty(KeepKeywords(a.keywords, a.name), " ");
  }

  /** What the generator prints, and the error it stops with, if any. */
  datatype Output = Output(lines: seq<string>, error: Option<Error>)

  /** The annotation of `e` is looked up under `e` without presentation selectors. */
  predicate Annotated(e: string, annotations: map<string, Annotation>)
  {
    RemovePresentationSelector(e) in annotations
  }

  /** `es[j]` is the first emoji without an annotation. */
  predicate FirstUnannotated(es: seq<string>, annotations: map<string, Annotation>, j: int)
  {
    0 <= j < |es| && !Annotated(es[j], annotations)
    && forall k :: 0 <= k < j ==> Annotated(es[k], annotations)
  }

  /** The error that stops the render loop: the first emoji without an annotation, if any. */
  function Stop(es: seq<string>, annotations: map<string, Annotation>): Option<Error>
    decreases |es|
  {
    if es == [] then None
    else
      var prior := Stop(es[..|es| - 1], annotations);
      if prior.Some? then prior
      else if !Annotated(es[|es| - 1], annotations) then Some(NoAnnotation(es[|es| - 1]))
      else None
  }

  /** The lines the render loop prints before it stops, or for every emoji when it does not. */
  function Printed(es: seq<string>, annotations: map<string, Annotation>): seq<string>
    decreases |es|
  {
    if es == [] then []
    else if Stop(es, annotations).Some? then Printed(es[..|es| - 1], annotations)
    else
      var e := es[|es| - 1];
      Printed(es[..|es| - 1], annotations) + [RenderLine(e, annotations[RemovePresentationSelector(e)])]
  }

  /** The render loop, as a function: its lines and the error it stops with. */
  function Rendered(es: seq<string>, annotations: map<string, Annotation>): Output
  {
    Output(Printed(es, annotations), Stop(es, annotations))
  }

  /** The loop stops exactly at the first emoji without an annotation, and reports it. */
  lemma {:induction false} StopMeaning(es: seq<string>, annotations: map<string, Annotation>)
    ensures (forall k :: 0 <= k < |es| ==> Annotated(es[k], annotations)) ==> Stop(es, annotations) == None
    ensures forall j :: FirstUnannotated(es, annotations, j) ==> Stop(es, annotations) == Some(NoAnnotation(es[j]))
    decreases |es|
  {
    if es != [] {
      var init := es[..|es| - 1];
      StopMeaning(init, annotations);
      assert forall k :: 0 <= k < |init| ==> init[k] == es[k];
      forall j | FirstUnannotated(es, annotations, j)
        ensures Stop(es, annotations) == Some(NoAnnotation(es[j]))
      {
        if j < |init| {
          assert FirstUnannotated(init, annotations, j);
        }
      }
    }
  }

  /** One line per emoji when nothing stops the loop; one line for each emoji before the first
      unannotated one otherwise. */
  lemma {:induction false} PrintedLength(es: seq<string>, annotations: map<string, Annotation>)
    ensures |Printed(es, annotations)| <= |es|
    ensures Stop(es, annotations) == None ==> |Printed(es, annotations)| == |es|
    ensures forall j :: FirstUnannotated(es, annotations, j) ==> |Printed(es, annotations)| == j
    decreases |es|
  {
    if es != [] {
      var init := es[..|es| - 1];
      PrintedLength(init, annotations);
      StopMeaning(init, annotations);
      assert forall k :: 0 <= k < |init| ==> init[k] == es[k];
      forall j | FirstUnannotated(es, annotations, j) ensures |Printed(es, annotations)| == j {
        if j < |init| {
          assert FirstUnannotated(init, annotations, j);
        }
      }
    }
  }

  /** The k-th printed line is the rendering of the k-th emoji, which is annotated. */
  lemma {:induction false} PrintedLine(es: seq<string>, annotations: map<string, Annotation>, k: nat)
    requires k < |Printed(es, annotations)|
    ensures k < |es| && Annotated(es[k], annotations)
    ensures Printed(es, annotations)[k] == RenderLine(es[k], annotations[RemovePresentationSelector(es[k])])
    decreases |es|
  {
    var init := es[..|es| - 1];
    PrintedLength(es, annotations);
    PrintedLength(init, annotations);
    if k < |Printed(init, annotations)| {
      PrintedLine(init, annotations, k);
      assert init[k] == es[k];
    }
  }

  /** Once a prefix of the emoji stops the loop, the whole list stops it with the same output. */
  lemma {:induction false} StopsAtError(es: seq<string>, i: nat, annotations: map<string, Annotation>)
    requires i <= |es| && Stop(es[..i], annotations).Some?
    ensures Stop(es, annotations) == Stop(es[..i], annotations)
    ensures Printed(es, annotations) == Printed(es[..i], annotations)
    decreases |es| - i
  {
    if i < |es| {
      assert es[..i + 1][..i] == es[..i];
      StopsAtError(es, i + 1, annotations);
    } else {
      assert es[..i] == es;
    }
  }

  /** Two annotations print the same line for every emoji. */
  predicate SameRendering(a: Annotation, b: Annotation)
  {
    a.name == b.name && KeepKeywords(a.keywords, a.name) == KeepKeywords(b.keywords, b.name)
  }

  /** Annotations that print the same line for every emoji print the same line for `emoji`. */
  lemma SameLine(emoji: string, a: Annotation, b: Annotation)
    requires SameRendering(a, b)
    ensures RenderLine(emoji, a) == RenderLine(emoji, b)
  {
  }

  /** Replacing an entry's keywords by the kept ones changes no printed line. */
  lemma FilterInPlace(current: map<string, Annotation>, annotations: map<string, Annotation>, key: string)
    requires current.Keys == annotations.Keys && key in current
    requires forall k :: k in current ==> SameRendering(current[k], annotations[k])
    ensures var a := current[key];
      var updated := current[key := Annotation(a.name, KeepKeywords(a.keywords, a.name))];
      updated.Keys == annotations.Keys && forall k :: k in updated ==> SameRendering(updated[k], annotations[k])
  {
    KeepKeywordsIdempotent(current[key].keywords, current[key].name);
  }

  /** The render loop of generate: looks up each emoji's annotation, filters its keywords in
      place and prints its line; stops at the first emoji without an annotation. */
  method Render(emojis: seq<string>, annotations: map<string, Annotation>) returns (out: Output)
    ensures out == Rendered(emojis, annotations)
  {
    var current := annotations;
    var lines: seq<string> := [];
    for i := 0 to |emojis|
      invariant Stop(emojis[..i], annotations) == None && Printed(emojis[..i], annotations) == lines
      invariant current.Keys == annotations.Keys
      invariant forall key :: key in current ==> SameRendering(current[key], annotations[key])
    {
      var emoji := emojis[i];
      assert emojis[..i + 1][..i] == emojis[..i];
      var key := RemovePresentationSelector(emoji);
      if key !in current {
        StopsAtError(emojis, i + 1, annotations);
        return Output(lines, Some(NoAnnotation(emoji)));
      }
      var annotation := current[key];
      var kept := KeepKeywords(annotation.keywords, annotation.name);
      FilterInPlace(current, annotations, key);
      SameLine(emoji, annotation, annotations[key]);
      current := current[key := Annotation(annotation.name, kept)];
      var line := PrintLine(emoji, annotation.name, kept);
      lines := lines + [line];
    }
    assert emojis[..|emojis|] == emojis;
    return Output(lines, None);
  }

  /** generate, as a function of the decoded inputs: the emoji set, sorted by the collation
      and rendered with the merged annotations. */
  function GenerateOf(dataLines: seq<string>, sequenceLines: seq<string>, zwjLines: seq<string>,
                      primary: seq<AnnotationRecord>, derived: seq<AnnotationRecord>,
                      collations: seq<CollationElement>): Output
  {
    match EmojiSetOf(dataLines, sequenceLines, zwjLines)
    case Failure(e) => Output([], Some(e))
    case Success(emojis) =>
      match CollationTable(collations)
      case Failure(e) => Output([], Some(e))
      case Success(table) =>
        CmpIsTotalOrder(table);
        Rendered(SortOf(emojis, Order(table)), Merge(AnnotationsOf(primary), AnnotationsOf(derived)))
  }

  /** The output follows the collation order: it is the rendering of the one ordering of the
      emoji set in which every emoji may precede every later one, whatever algorithm sorts. */
  lemma GenerateFollowsOrder(dataLines: seq<string>, sequenceLines: seq<string>, zwjLines: seq<string>,
                             primary: seq<AnnotationRecord>, derived: seq<AnnotationRecord>,
                             collations: seq<CollationElement>, order: seq<string>)
    requires EmojiSetOf(dataLines, sequenceLines, zwjLines).Success?
    requires CollationTable(collations).Success?
    requires multiset(order) == multiset(EmojiSetOf(dataLines, sequenceLines, zwjLines).value)
    requires Sorted(order, Order(CollationTable(collations).value))
    ensures GenerateOf(dataLines, sequenceLines, zwjLines, primary, derived, collations) ==
      Rendered(order, Merge(AnnotationsOf(primary), AnnotationsOf(derived)))
  {
    var table := CollationTable(collations).value;
    CmpIsTotalOrder(table);
    SortOfMeaning(EmojiSetOf(dataLines, sequenceLines, zwjLines).value, order, Order(table));
  }

  /** generate: builds the emoji set, reads the annotations and the collation, sorts the emoji
      in place and renders them. */
  method Generate(dataLines: seq<string>, sequenceLines: seq<string>, zwjLines: seq<string>,
                  primary: seq<AnnotationRecord>, derived: seq<AnnotationRecord>,
                  collations: seq<CollationElement>) returns (out: Output)
    ensures out == GenerateOf(dataLines, sequenceLines, zwjLines, primary, derived, collations)
  {
    var emojis := Emojis(dataLines, sequenceLines, zwjLines);
    if emojis.Failure? {
      return Output([], Some(emojis.error));
    }
    var annotations := ReadAnnotations(primary, derived);
    var collation := CollationData(collations);
    if collation.Failure? {
      return Output([], Some(collation.error));
    }
    var table := collation.value;
    var es := emojis.value;
    var a := new string[|es|](i requires 0 <= i < |es| => es[i]);
    assert a[..] == es;
    CmpIsTotalOrder(table);
    SortFunc(a, Order(table));
    out := Render(a[..], annotations);
  }
}
