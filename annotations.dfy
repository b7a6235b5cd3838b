/**
 * CLDR annotations (common/annotations/en.xml and common/annotationsDerived/en.xml), already
 * decoded from XML into `<annotation cp=".." type="..">text</annotation>` records.
 */
module Annotations {
  import opened GoStrings

  /** One decoded `<annotation>` element: its `cp` and `type` attributes and its text. */
  datatype AnnotationRecord = AnnotationRecord(cp: string, kind: string, text: string)

  /** The name and keywords of one emoji (emojiAnnotation). */
  datatype Annotation = Annotation(name: string, keywords: seq<string>)

  /** The `type` of the record that carries the text-to-speech name. */
  const Tts: string := "tts"

  /** The characters that separate keywords: space and `|`. */
  const KeywordSeparators: set<char> := {' ', '|'}

  /** `r` names the emoji `cp`. */
  predicate NamesCp(r: AnnotationRecord, cp: string)
  {
    r.cp == cp && r.kind == Tts
  }

  /** `r` lists the keywords of the emoji `cp`. */
  predicate ListsCp(r: AnnotationRecord, cp: string)
  {
    r.cp == cp && r.kind != Tts
  }

  /** `records[j]` is the last record that names `cp`. */
  predicate LastNaming(records: seq<AnnotationRecord>, cp: string, j: int)
  {
    0 <= j < |records| && NamesCp(records[j], cp)
    && forall k :: j < k < |records| ==> !NamesCp(records[k], cp)
  }

  /** `records[j]` is the last record that lists keywords of `cp`. */
  predicate LastListing(records: seq<AnnotationRecord>, cp: string, j: int)
  {
    0 <= j < |records| && ListsCp(records[j], cp)
    && forall k :: j < k < |records| ==> !ListsCp(records[k], cp)
  }

  /** The name of `cp`: the text of its last `tts` record, or empty when it has none. */
  function NameOf(records: seq<AnnotationRecord>, cp: string): (name: string)
    ensures (forall j :: 0 <= j < |records| ==> !NamesCp(records[j], cp)) ==> name == []
    ensures forall j :: LastNaming(records, cp, j) ==> name == records[j].text
    decreases |records|
  {
    if records == [] then []
    else
      var last := records[|records| - 1];
      var init := records[..|records| - 1];
      assert forall k :: 0 <= k < |init| ==> init[k] == records[k];
      if NamesCp(last, cp) then last.text else NameOf(init, cp)
  }

  /** The keywords of `cp`: the fields of its last non-`tts` record, or none when it has none.
      A later record replaces the keywords of an earlier one. */
  function KeywordsOf(records: seq<AnnotationRecord>, cp: string): (keywords: seq<string>)
    ensures (forall j :: 0 <= j < |records| ==> !ListsCp(records[j], cp)) ==> keywords == []
    ensures forall j :: LastListing(records, cp, j) ==>
      keywords == Fields(records[j].text, KeywordSeparators)
    decreases |records|
  {
    if records == [] then []
    else
      var last := records[|records| - 1];
      var init := records[..|records| - 1];
      assert forall k :: 0 <= k < |init| ==> init[k] == records[k];
      if ListsCp(last, cp) then Fields(last.text, KeywordSeparators) else KeywordsOf(init, cp)
  }

  /** The emoji that some record mentions. */
  function Cps(records: seq<AnnotationRecord>): set<string>
  {
    set r | r in records :: r.cp
  }

  /** Every keyword read from a file is non-empty and holds no space and no `|`. */
  lemma {:induction false} KeywordsAreFields(records: seq<AnnotationRecord>, cp: string)
    ensures forall k :: 0 <= k < |KeywordsOf(records, cp)| ==>
      KeywordsOf(records, cp)[k] != [] && Avoids(KeywordsOf(records, cp)[k], KeywordSeparators)
    decreases |records|
  {
    if records != [] {
      KeywordsAreFields(records[..|records| - 1], cp);
    }
  }

  /** The loop body of annotationsInFile: the entry of `record.cp`, created empty when absent,
      gets the record's name or keywords. */
  function Record(annotations: map<string, Annotation>, record: AnnotationRecord): map<string, Annotation>
  {
    var data := if record.cp in annotations then annotations[record.cp] else Annotation([], []);
    annotations[record.cp :=
      if record.kind == Tts then data.(name := record.text)
      else data.(keywords := Fields(record.text, KeywordSeparators))]
  }

  /** annotationsInFile, as a function of the records: each record applied in order. */
  function AnnotationsOf(records: seq<AnnotationRecord>): map<string, Annotation>
    decreases |records|
  {
    if records == [] then map[]
    else Record(AnnotationsOf(records[..|records| - 1]), records[|records| - 1])
  }

  /** The map holds one entry per `cp` of the file: its name is the text of its last `tts`
      record and its keywords are the fields of its last other record (empty when there is
      none), so a later record replaces, and never extends, what an earlier one set. */
  lemma {:induction false} AnnotationsOfMeaning(records: seq<AnnotationRecord>)
    ensures AnnotationsOf(records).Keys == Cps(records)
    ensures forall cp :: cp in AnnotationsOf(records) ==>
      AnnotationsOf(records)[cp] == Annotation(NameOf(records, cp), KeywordsOf(records, cp))
    decreases |records|
  {
    if records != [] {
      var init := records[..|records| - 1];
      var record := records[|records| - 1];
      AnnotationsOfMeaning(init);
      assert records == init + [record];
      assert Cps(records) == Cps(init) + {record.cp};
      forall cp | cp in AnnotationsOf(records)
        ensures AnnotationsOf(records)[cp] == Annotation(NameOf(records, cp), KeywordsOf(records, cp))
      {
        if cp == record.cp && cp !in Cps(init) {
          assert forall j :: 0 <= j < |init| ==> init[j].cp != cp;
        }
      }
    }
  }

  /** annotationsInFile: one entry per `cp`, created on first sight; a `tts` record sets its name,
      any other record replaces its keywords. */
  method AnnotationsInFile(records: seq<AnnotationRecord>) returns (annotations: map<string, Annotation>)
    ensures annotations == AnnotationsOf(records)
  {
    annotations := map[];
    for i := 0 to |records|
      invariant annotations == AnnotationsOf(records[..i])
    {
      var record := records[i];
      var data := if record.cp in annotations then annotations[record.cp] else Annotation([], []);
      if record.kind == Tts {
        data := data.(name := record.text);
      } else {
        data := data.(keywords := Fields(record.text, KeywordSeparators));
      }
      assert records[..i + 1][..i] == records[..i];
      annotations := annotations[record.cp := data];
    }
    assert records[..|records|] == records;
  }

  /** maps.Copy(primary, derived): every entry of `derived` overwrites the entry of `primary`. */
  function Merge(primary: map<string, Annotation>, derived: map<string, Annotation>)
    : (merged: map<string, Annotation>)
    ensures merged.Keys == primary.Keys + derived.Keys
    ensures forall cp :: cp in derived ==> merged[cp] == derived[cp]
    ensures forall cp :: cp in primary && cp !in derived ==> merged[cp] == primary[cp]
  {
    primary + derived
  }

  /** annotations: the primary file, then the derived file on top of it. */
  method ReadAnnotations(primary: seq<AnnotationRecord>, derived: seq<AnnotationRecord>)
    returns (annotations: map<string, Annotation>)
    ensures annotations.Keys == Cps(primary) + Cps(derived)
    ensures forall cp :: cp in Cps(derived) ==>
      annotations[cp] == Annotation(NameOf(derived, cp), KeywordsOf(derived, cp))
    ensures forall cp :: cp in Cps(primary) && cp !in Cps(derived) ==>
      annotations[cp] == Annotation(NameOf(primary, cp), KeywordsOf(primary, cp))
    ensures annotations == Merge(AnnotationsOf(primary), AnnotationsOf(derived))
  {
    var fromPrimary := AnnotationsInFile(primary);
    var fromDerived := AnnotationsInFile(derived);
    AnnotationsOfMeaning(primary);
    AnnotationsOfMeaning(derived);
    annotations := Merge(fromPrimary, fromDerived);
  }
}
