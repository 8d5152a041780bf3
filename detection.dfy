/** What both redactors collect before splicing: the spans of the recognised
    entities they mask, followed by the matches of the nine fixed patterns in
    table order, each carrying its `{{LABEL}}` placeholder. */
module Detection {
  import opened Spans

  /** An entity found by the statistical recogniser: character offsets into
      the text and the recogniser's category ("PERSON", "GPE", "ORG", ...). */
  datatype Entity = Entity(start: nat, end: nat, category: string)

  /** One match of a pattern: character offsets into the text. */
  datatype Match = Match(start: nat, end: nat)

  /** The nine entries of the pattern table. */
  datatype Pattern = Phone | Email | Ssn | Mrn | Dob | Age | RegNo | Date | NamePrefix

  /** The table's entries in their declared order, which is the order the
      loops visit them in. */
  const CustomPatterns: seq<Pattern> := [Phone, Email, Ssn, Mrn, Dob, Age, RegNo, Date, NamePrefix]

  /** The entry's key, which is also the label of its placeholder. */
  function Key(p: Pattern): string
  {
    match p
    case Phone => "PHONE"
    case Email => "EMAIL"
    case Ssn => "SSN"
    case Mrn => "MRN"
    case Dob => "DOB"
    case Age => "AGE"
    case RegNo => "REG_NO"
    case Date => "DATE"
    case NamePrefix => "NAME_PREFIX"
  }

  /** The two capabilities the redactors consume: the recogniser, and the
      regular-expression engine's `finditer`, which lists the matches of one
      pattern over a text from left to right. */
  datatype Detectors = Detectors(ner: string -> seq<Entity>, finditer: (Pattern, string) -> seq<Match>)

  /** Recogniser labels whose entities are masked; every other label, ORG
      included, is left in the text. */
  const MaskedLabels: set<string> := {"PERSON", "GPE", "DATE"}

  function Placeholder(name: string): string
  {
    "{{" + name + "}}"
  }

  /** The spans contributed by the recogniser, in its order. */
  function NerSpans(ents: seq<Entity>): seq<Span>
    decreases |ents|
  {
    if ents == [] then []
    else
      var e := ents[|ents| - 1];
      NerSpans(ents[..|ents| - 1]) + (if e.category in MaskedLabels then [Span(e.start, e.end, Placeholder(e.category))] else [])
  }

  /** The spans of one pattern's matches, in match order. */
  function MatchSpans(p: Pattern, ms: seq<Match>): seq<Span>
    decreases |ms|
  {
    if ms == [] then []
    else
      var m := ms[|ms| - 1];
      MatchSpans(p, ms[..|ms| - 1]) + [Span(m.start, m.end, Placeholder(Key(p)))]
  }

  /** The spans of all matches of the patterns ps, pattern by pattern. */
  function PatternSpans(d: Detectors, text: string, ps: seq<Pattern>): seq<Span>
    decreases |ps|
  {
    if ps == [] then []
    else
      var p := ps[|ps| - 1];
      PatternSpans(d, text, ps[..|ps| - 1]) + MatchSpans(p, d.finditer(p, text))
  }

  /** The recogniser contributes exactly one span per entity labelled PERSON,
      GPE or DATE, covering the entity and carrying its own label; entities
      with any other label (ORG, say) contribute nothing. */
  lemma {:induction false} NerSpansMembers(ents: seq<Entity>)
    ensures forall sp :: sp in NerSpans(ents) <==>
              exists e :: e in ents && e.category in MaskedLabels && sp == Span(e.start, e.end, Placeholder(e.category))
    ensures |NerSpans(ents)| <= |ents|
    decreases |ents|
  {
    if ents != [] {
      var init, e := ents[..|ents| - 1], ents[|ents| - 1];
      assert ents == init + [e];
      NerSpansMembers(init);
    }
  }

  lemma {:induction false} MatchSpansMembers(p: Pattern, ms: seq<Match>)
    ensures forall sp :: sp in MatchSpans(p, ms) <==>
              exists m :: m in ms && sp == Span(m.start, m.end, Placeholder(Key(p)))
    decreases |ms|
  {
    if ms != [] {
      var init, m := ms[..|ms| - 1], ms[|ms| - 1];
      assert ms == init + [m];
      MatchSpansMembers(p, init);
    }
  }

  /** Each match of each listed pattern contributes one span carrying that
      pattern's key, and nothing else is contributed. */
  lemma {:induction false} PatternSpansMembers(d: Detectors, text: string, ps: seq<Pattern>)
    ensures forall sp :: sp in PatternSpans(d, text, ps) <==>
              exists p, m :: p in ps && m in d.finditer(p, text) && sp == Span(m.start, m.end, Placeholder(Key(p)))
    decreases |ps|
  {
    if ps != [] {
      var init, p := ps[..|ps| - 1], ps[|ps| - 1];
      assert ps == init + [p];
      PatternSpansMembers(d, text, init);
      MatchSpansMembers(p, d.finditer(p, text));
    }
  }

  /** Everything collected for one text, in collection order: the recogniser's
      spans first, then the patterns' in table order. */
  function CandidateSpans(text: string, d: Detectors): seq<Span>
  {
    NerSpans(d.ner(text)) + PatternSpans(d, text, CustomPatterns)
  }

  /** The text both redactors produce for a string. */
  function Redact(text: string, d: Detectors): string
  {
    ApplyAll(text, SortByStartDesc(CandidateSpans(text, d)))
  }

  /** The two collection loops: masked entities, then every match of every
      pattern, each appended with its placeholder. */
  method CollectSpans(text: string, d: Detectors) returns (spans: seq<Span>)
    ensures spans == CandidateSpans(text, d)
  {
    spans := MaskEntities([], d.ner(text));
    spans := AppendPatterns(spans, d, text, CustomPatterns);
  }

  /** The outer loop over the pattern table. */
  method AppendPatterns(acc: seq<Span>, d: Detectors, text: string, ps: seq<Pattern>) returns (spans: seq<Span>)
    ensures spans == acc + PatternSpans(d, text, ps)
  {
    spans := acc;
    for j := 0 to |ps|
      invariant spans == acc + PatternSpans(d, text, ps[..j])
    {
      var p := ps[j];
      var ms := d.finditer(p, text);
      PatternSpansStep(d, text, ps, j);
      ghost var prev := PatternSpans(d, text, ps[..j]);
      ghost var more := MatchSpans(p, ms);
      spans := AppendMatches(spans, p, ms);
      ConcatAssoc(acc, prev, more);
    }
    assert ps[..|ps|] == ps;
  }

  /** One more pattern appends its match spans to those of the earlier ones. */
  lemma PatternSpansStep(d: Detectors, text: string, ps: seq<Pattern>, j: nat)
    requires j < |ps|
    ensures PatternSpans(d, text, ps[..j + 1]) == PatternSpans(d, text, ps[..j]) + MatchSpans(ps[j], d.finditer(ps[j], text))
  {
    assert ps[..j + 1][..j] == ps[..j];
  }

  /** The loop over the recogniser's entities. */
  method MaskEntities(acc: seq<Span>, ents: seq<Entity>) returns (spans: seq<Span>)
    ensures spans == acc + NerSpans(ents)
  {
    spans := acc;
    for i := 0 to |ents|
      invariant spans == acc + NerSpans(ents[..i])
    {
      var e := ents[i];
      assert ents[..i + 1][..i] == ents[..i];
      if e.category in MaskedLabels {
        spans := spans + [Span(e.start, e.end, Placeholder(e.category))];
      }
    }
    assert ents[..|ents|] == ents;
  }

  /** The inner loop over one pattern's matches. */
  method AppendMatches(acc: seq<Span>, p: Pattern, ms: seq<Match>) returns (spans: seq<Span>)
    ensures spans == acc + MatchSpans(p, ms)
  {
    spans := acc;
    for k := 0 to |ms|
      invariant spans == acc + MatchSpans(p, ms[..k])
    {
      assert ms[..k + 1][..k] == ms[..k];
      spans := spans + [Span(ms[k].start, ms[k].end, Placeholder(Key(p)))];
    }
    assert ms[..|ms|] == ms;
  }

  // ---------------------------------------------------------------------
  // Properties of the collected list

  lemma {:induction false} WithStartConcat(a: seq<Span>, b: seq<Span>, k: nat)
    ensures WithStart(a + b, k) == WithStart(a, k) + WithStart(b, k)
    decreases |a|
  {
    if a == [] {
      assert a + b == b;
    } else {
      assert (a + b)[0] == a[0];
      assert (a + b)[1..] == a[1..] + b;
      WithStartConcat(a[1..], b, k);
      var h := if a[0].start == k then [a[0]] else [];
      assert WithStart(a + b, k) == h + WithStart(a[1..] + b, k);
      assert WithStart(a, k) == h + WithStart(a[1..], k);
      ConcatAssoc(h, WithStart(a[1..], k), WithStart(b, k));
    }
  }

  /** Spans are spliced in descending order of start; among spans with the
      same start the recogniser's come first, then the patterns' in table
      order, each group in the order it was found. */
  lemma SpliceOrder(text: string, d: Detectors)
    ensures SortedDesc(SortByStartDesc(CandidateSpans(text, d)))
    ensures forall k :: WithStart(SortByStartDesc(CandidateSpans(text, d)), k)
                     == WithStart(NerSpans(d.ner(text)), k) + WithStart(PatternSpans(d, text, CustomPatterns), k)
  {
    forall k
      ensures WithStart(CandidateSpans(text, d), k)
           == WithStart(NerSpans(d.ner(text)), k) + WithStart(PatternSpans(d, text, CustomPatterns), k)
    {
      WithStartConcat(NerSpans(d.ner(text)), PatternSpans(d, text, CustomPatterns), k);
    }
  }

  lemma {:induction false} NoMatchesNoPatternSpans(d: Detectors, text: string, ps: seq<Pattern>)
    requires forall p :: d.finditer(p, text) == []
    ensures PatternSpans(d, text, ps) == []
    decreases |ps|
  {
    if ps != [] {
      NoMatchesNoPatternSpans(d, text, ps[..|ps| - 1]);
    }
  }

  lemma {:induction false} UnmaskedNoNerSpans(ents: seq<Entity>)
    requires forall e :: e in ents ==> e.category !in MaskedLabels
    ensures NerSpans(ents) == []
    decreases |ents|
  {
    if ents != [] {
      assert ents[|ents| - 1] in ents;
      assert forall e :: e in ents[..|ents| - 1] ==> e in ents;
      UnmaskedNoNerSpans(ents[..|ents| - 1]);
    }
  }

  /** With no pattern match and no entity labelled PERSON, GPE or DATE (only
      ORG entities, say) the text comes back exactly as it went in. */
  lemma NothingMaskedKeepsText(text: string, d: Detectors)
    requires forall e :: e in d.ner(text) ==> e.category !in MaskedLabels
    requires forall p :: d.finditer(p, text) == []
    ensures Redact(text, d) == text
  {
    UnmaskedNoNerSpans(d.ner(text));
    NoMatchesNoPatternSpans(d, text, CustomPatterns);
    assert CandidateSpans(text, d) == [];
  }

  /** With pairwise disjoint, non-empty, in-bounds spans the redacted text is
      the left-to-right rebuild: the text between spans is copied unchanged
      and each span is replaced by its placeholder. */
  lemma RedactDisjoint(text: string, d: Detectors)
    requires Separate(CandidateSpans(text, d), |text|)
    ensures AscChain(Reverse(SortByStartDesc(CandidateSpans(text, d))), 0, |text|)
    ensures Redact(text, d) == Rebuild(text, Reverse(SortByStartDesc(CandidateSpans(text, d))), 0)
  {
    CleanRedaction(text, CandidateSpans(text, d));
  }
}
