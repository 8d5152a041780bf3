/** The PHI inventory of `deidentify.py`: seven named lists of literals found
    in the text, filled by routing each recognised entity and each pattern
    match to one of them, merged key by key across cells, pages and tables,
    and finally stripped of duplicates. The functions here follow the loops
    turn by turn; the lemmas say what the lists end up holding. */
module Inventory {
  import opened Spans
  import opened Detection
  import opened Documents

  /** The seven keys of the inventory dictionary. */
  datatype Bucket = Names | Phones | Emails | Ssns | Mrns | Dates | Addresses

  /** The keys in the order the dictionary literal lists them, which is the
      order of the merge loops. */
  const AllBuckets: seq<Bucket> := [Names, Phones, Emails, Ssns, Mrns, Dates, Addresses]

  /** Where each key sits in `AllBuckets`. */
  function Position(b: Bucket): (k: nat)
    ensures k < |AllBuckets| && AllBuckets[k] == b
  {
    match b
    case Names => 0
    case Phones => 1
    case Emails => 2
    case Ssns => 3
    case Mrns => 4
    case Dates => 5
    case Addresses => 6
  }

  /** The keys of `AllBuckets` are distinct: each sits at its own position. */
  lemma PositionOf(i: nat)
    requires i < |AllBuckets|
    ensures Position(AllBuckets[i]) == i
  {
  }

  /** An inventory dictionary holding all seven keys, one list per key. A
      function that may also return the empty dictionary `{}` returns an
      `Option<Phi>`, with `None` for `{}`. */
  datatype Phi = Phi(names: seq<string>, phones: seq<string>, emails: seq<string>, ssns: seq<string>,
                     mrns: seq<string>, dates: seq<string>, addresses: seq<string>)

  /** The freshly built dictionary: every list empty. */
  const EmptyPhi: Phi := Phi([], [], [], [], [], [], [])

  /** `phi[key]`. */
  function Get(phi: Phi, b: Bucket): seq<string>
  {
    match b
    case Names => phi.names
    case Phones => phi.phones
    case Emails => phi.emails
    case Ssns => phi.ssns
    case Mrns => phi.mrns
    case Dates => phi.dates
    case Addresses => phi.addresses
  }

  /** `phi[key] = xs`. */
  function Put(phi: Phi, b: Bucket, xs: seq<string>): (r: Phi)
    ensures Get(r, b) == xs
    ensures forall c :: c != b ==> Get(r, c) == Get(phi, c)
  {
    match b
    case Names => phi.(names := xs)
    case Phones => phi.(phones := xs)
    case Emails => phi.(emails := xs)
    case Ssns => phi.(ssns := xs)
    case Mrns => phi.(mrns := xs)
    case Dates => phi.(dates := xs)
    case Addresses => phi.(addresses := xs)
  }

  /** `phi.get(key, [])`: the empty dictionary has no lists. */
  function Lookup(phi: Option<Phi>, b: Bucket): seq<string>
  {
    if phi.Some? then Get(phi.value, b) else []
  }

  /** Two inventories with the same list under every key are equal. */
  lemma SameLists(x: Phi, y: Phi)
    requires forall b :: Get(x, b) == Get(y, b)
    ensures x == y
  {
    assert Get(x, Names) == Get(y, Names) && Get(x, Phones) == Get(y, Phones);
    assert Get(x, Emails) == Get(y, Emails) && Get(x, Ssns) == Get(y, Ssns);
    assert Get(x, Mrns) == Get(y, Mrns) && Get(x, Dates) == Get(y, Dates);
    assert Get(x, Addresses) == Get(y, Addresses);
  }

  predicate NoDup(xs: seq<string>)
  {
    forall i, j :: 0 <= i < j < |xs| ==> xs[i] != xs[j]
  }

  // ---------------------------------------------------------------------
  // Name cleaning: `s.split('\n')[0].split(' Sample')[0].split(' Age')[0]`

  /** The separator sep starts at position i of s. */
  predicate OccursAt(s: string, sep: string, i: nat)
  {
    i + |sep| <= |s| && s[i..i + |sep|] == sep
  }

  /** The first position at or after i where sep starts, or |s| if none. */
  function FindFrom(s: string, sep: string, i: nat): (r: nat)
    requires sep != [] && i <= |s|
    ensures i <= r <= |s|
    ensures forall j: nat :: i <= j < r ==> !OccursAt(s, sep, j)
    ensures r == |s| || OccursAt(s, sep, r)
    decreases |s| - i
  {
    if i == |s| then |s|
    else if OccursAt(s, sep, i) then i
    else FindFrom(s, sep, i + 1)
  }

  /** `s.split(sep)[0]`: s up to the first occurrence of sep, or all of s. */
  function Before(s: string, sep: string): (r: string)
    requires sep != []
    ensures |r| <= |s| && r == s[..|r|]
    ensures forall j: nat :: j < |r| ==> !OccursAt(s, sep, j)
    ensures r == s || OccursAt(s, sep, |r|)
  {
    s[..FindFrom(s, sep, 0)]
  }

  /** The separators a recognised name is cut at, in the order they are applied. */
  const NameCuts: seq<string> := ["\n", " Sample", " Age"]

  function CleanName(s: string): string
  {
    Before(Before(Before(s, "\n"), " Sample"), " Age")
  }

  /** A separator that fits inside a prefix of s occurs there iff it occurs in s. */
  lemma OccursInPrefix(s: string, k: nat, sep: string, j: nat)
    requires k <= |s| && j + |sep| <= k
    ensures OccursAt(s[..k], sep, j) <==> OccursAt(s, sep, j)
  {
    assert s[..k][j..j + |sep|] == s[j..j + |sep|];
  }

  /** The recorded name is the text up to the first place where a line break,
      " Sample" or " Age" begins: none of the three starts earlier, and one
      of them starts right after the name unless the name is the whole text. */
  lemma CleanNameIsFirstCut(s: string)
    ensures var r := CleanName(s);
      |r| <= |s| && r == s[..|r|] &&
      (forall sep, j: nat :: sep in NameCuts && j < |r| ==> !OccursAt(s, sep, j)) &&
      (r == s || exists sep :: sep in NameCuts && OccursAt(s, sep, |r|))
  {
    var p1 := Before(s, "\n");
    var p2 := Before(p1, " Sample");
    var r := Before(p2, " Age");
    var k1, k2, k3 := |p1|, |p2|, |r|;
    assert p2 == s[..k2];
    assert r == s[..k3];
    forall sep, j: nat | sep in NameCuts && j < k3
      ensures !OccursAt(s, sep, j)
    {
      if sep == " Sample" {
        NoSampleBefore(s, p1, p2, j);
      } else if sep == " Age" {
        NoAgeBefore(s, p1, p2, r, j);
      }
    }
    if r != s {
      if k3 < k2 {
        OccursInPrefix(s, k2, " Age", k3);
      } else if k2 < k1 {
        OccursInPrefix(s, k1, " Sample", k2);
      }
    }
  }

  /** Inside an occurrence of sep, s agrees with sep character by character. */
  lemma CharOf(s: string, sep: string, i: nat, k: nat)
    requires OccursAt(s, sep, i) && i <= k < i + |sep|
    ensures s[k] == sep[k - i]
  {
    assert s[i..i + |sep|][k - i] == s[k];
  }

  lemma NoSampleBefore(s: string, p1: string, p2: string, j: nat)
    requires p1 == Before(s, "\n") && p2 == Before(p1, " Sample") && j < |p2|
    ensures !OccursAt(s, " Sample", j)
  {
    if OccursAt(s, " Sample", j) {
      var k1 := |p1|;
      if j + 7 <= k1 {
        OccursInPrefix(s, k1, " Sample", j);
        assert false;
      } else {
        // the occurrence would straddle the line break that ends p1
        CharOf(s, "\n", k1, k1);
        CharOf(s, " Sample", j, k1);
        assert false;
      }
    }
  }

  lemma NoAgeBefore(s: string, p1: string, p2: string, r: string, j: nat)
    requires p1 == Before(s, "\n") && p2 == Before(p1, " Sample") && r == Before(p2, " Age") && j < |r|
    ensures !OccursAt(s, " Age", j)
  {
    if OccursAt(s, " Age", j) {
      var k1, k2 := |p1|, |p2|;
      assert p2 == s[..k2];
      if j + 4 <= k2 {
        OccursInPrefix(s, k2, " Age", j);
        assert false;
      } else if k2 < k1 {
        // the occurrence would straddle the " Sample" that ends p2
        CharOf(p1, " Sample", k2, k2);
        assert p1[k2] == s[k2];
        CharOf(s, " Age", j, k2);
        assert false;
      } else {
        // the occurrence would straddle the line break that ends p1
        CharOf(s, "\n", k1, k1);
        CharOf(s, " Age", j, k1);
        assert false;
      }
    }
  }

  // ---------------------------------------------------------------------
  // The entity loop

  /** `ent.text`: the characters the entity covers. */
  function EntityText(text: string, e: Entity): string
  {
    Slice(text, e.start, e.end)
  }

  /** `match.group()`: the characters the match covers. */
  function MatchText(text: string, m: Match): string
  {
    Slice(text, m.start, m.end)
  }

  /** A cleaned name is recorded unless it is empty or already listed. */
  function AddName(names: seq<string>, name: string): seq<string>
  {
    if name != [] && name !in names then names + [name] else names
  }

  /** One turn of the entity loop: PERSON adds its cleaned name, GPE its
      text to the addresses, DATE its text to the dates; other labels add
      nothing. */
  function AddEntity(phi: Phi, text: string, e: Entity): Phi
  {
    if e.category == "PERSON" then phi.(names := AddName(phi.names, CleanName(EntityText(text, e))))
    else if e.category == "GPE" then phi.(addresses := phi.addresses + [EntityText(text, e)])
    else if e.category == "DATE" then phi.(dates := phi.dates + [EntityText(text, e)])
    else phi
  }

  function AddEntities(phi: Phi, text: string, ents: seq<Entity>): Phi
    decreases |ents|
  {
    if ents == [] then phi
    else AddEntity(AddEntities(phi, text, ents[..|ents| - 1]), text, ents[|ents| - 1])
  }

  // ---------------------------------------------------------------------
  // The pattern loop

  /** Which list a match of each pattern goes to: AGE, REG_NO and NAME_PREFIX
      matches are masked in the text but recorded nowhere, and both DOB and
      DATE matches go to the dates. */
  function Route(p: Pattern): (r: Option<Bucket>)
    ensures r == Some(Phones) <==> p == Phone
    ensures r == Some(Emails) <==> p == Email
    ensures r == Some(Ssns) <==> p == Ssn
    ensures r == Some(Mrns) <==> p == Mrn
    ensures r == Some(Dates) <==> p == Dob || p == Date
    ensures r == None <==> p == Age || p == RegNo || p == NamePrefix
    ensures r != Some(Names) && r != Some(Addresses)
  {
    match p
    case Phone => Some(Phones)
    case Email => Some(Emails)
    case Ssn => Some(Ssns)
    case Mrn => Some(Mrns)
    case Dob => Some(Dates)
    case Date => Some(Dates)
    case _ => None
  }

  /** One turn of the match loop. */
  function AddMatch(phi: Phi, p: Pattern, value: string): Phi
  {
    match Route(p)
    case Some(b) => Put(phi, b, Get(phi, b) + [value])
    case None => phi
  }

  function AddMatches(phi: Phi, text: string, p: Pattern, ms: seq<Match>): Phi
    decreases |ms|
  {
    if ms == [] then phi
    else AddMatch(AddMatches(phi, text, p, ms[..|ms| - 1]), p, MatchText(text, ms[|ms| - 1]))
  }

  function AddPatterns(phi: Phi, d: Detectors, text: string, ps: seq<Pattern>): Phi
    decreases |ps|
  {
    if ps == [] then phi
    else
      var p := ps[|ps| - 1];
      AddMatches(AddPatterns(phi, d, text, ps[..|ps| - 1]), text, p, d.finditer(p, text))
  }

  /** What `extract_phi_info` returns for a string. */
  function TextPhi(text: string, d: Detectors): Phi
  {
    AddPatterns(AddEntities(EmptyPhi, text, d.ner(text)), d, text, CustomPatterns)
  }

  /** A per-string extractor. The merges below are stated for any extractor;
      the program's own is `Extract(d)`. */
  type Extractor = string -> Phi

  function Extract(d: Detectors): Extractor
  {
    text => TextPhi(text, d)
  }

  /** What `extract_phi_info` returns for any value: `{}` for a non-string. */
  function ValuePhi(v: Json, ex: Extractor): Option<Phi>
  {
    if v.JString? then Some(ex(v.s)) else None
  }

  // ---------------------------------------------------------------------
  // What the lists hold, bucket by bucket

  /** The names the entity loop records, starting from names. */
  function NamesFrom(names: seq<string>, text: string, ents: seq<Entity>): seq<string>
    decreases |ents|
  {
    if ents == [] then names
    else
      var e := ents[|ents| - 1];
      var before := NamesFrom(names, text, ents[..|ents| - 1]);
      if e.category == "PERSON" then AddName(before, CleanName(EntityText(text, e))) else before
  }

  /** The texts of the entities carrying the given label, in order. */
  function Labelled(text: string, ents: seq<Entity>, category: string): seq<string>
    decreases |ents|
  {
    if ents == [] then []
    else
      var e := ents[|ents| - 1];
      Labelled(text, ents[..|ents| - 1], category) + (if e.category == category then [EntityText(text, e)] else [])
  }

  function MatchTexts(text: string, ms: seq<Match>): seq<string>
    decreases |ms|
  {
    if ms == [] then [] else MatchTexts(text, ms[..|ms| - 1]) + [MatchText(text, ms[|ms| - 1])]
  }

  /** The match texts of the patterns routed to b, pattern by pattern. */
  function Routed(d: Detectors, text: string, ps: seq<Pattern>, b: Bucket): seq<string>
    decreases |ps|
  {
    if ps == [] then []
    else
      var p := ps[|ps| - 1];
      Routed(d, text, ps[..|ps| - 1], b) + (if Route(p) == Some(b) then MatchTexts(text, d.finditer(p, text)) else [])
  }

  lemma {:induction false} AddEntitiesBuckets(phi: Phi, text: string, ents: seq<Entity>)
    ensures var r := AddEntities(phi, text, ents);
      r.names == NamesFrom(phi.names, text, ents) &&
      r.addresses == phi.addresses + Labelled(text, ents, "GPE") &&
      r.dates == phi.dates + Labelled(text, ents, "DATE") &&
      r.phones == phi.phones && r.emails == phi.emails && r.ssns == phi.ssns && r.mrns == phi.mrns
    decreases |ents|
  {
    if ents != [] {
      AddEntitiesBuckets(phi, text, ents[..|ents| - 1]);
    }
  }

  lemma {:induction false} AddMatchesBucket(phi: Phi, text: string, p: Pattern, ms: seq<Match>, b: Bucket)
    ensures Get(AddMatches(phi, text, p, ms), b) == Get(phi, b) + (if Route(p) == Some(b) then MatchTexts(text, ms) else [])
    decreases |ms|
  {
    if ms != [] {
      AddMatchesBucket(phi, text, p, ms[..|ms| - 1], b);
    }
  }

  lemma {:induction false} AddPatternsBucket(phi: Phi, d: Detectors, text: string, ps: seq<Pattern>, b: Bucket)
    ensures Get(AddPatterns(phi, d, text, ps), b) == Get(phi, b) + Routed(d, text, ps, b)
    decreases |ps|
  {
    if ps != [] {
      var p := ps[|ps| - 1];
      AddPatternsBucket(phi, d, text, ps[..|ps| - 1], b);
      AddMatchesBucket(AddPatterns(phi, d, text, ps[..|ps| - 1]), text, p, d.finditer(p, text), b);
    }
  }

  /** Nothing is ever routed to the names or the addresses. */
  lemma {:induction false} RoutedNever(d: Detectors, text: string, ps: seq<Pattern>)
    ensures Routed(d, text, ps, Names) == [] && Routed(d, text, ps, Addresses) == []
    decreases |ps|
  {
    if ps != [] {
      RoutedNever(d, text, ps[..|ps| - 1]);
    }
  }

  /** The routing of `extract_phi_info` as a whole: names come only from
      PERSON entities, addresses only from GPE entities, dates from DATE
      entities followed by the DOB and DATE matches, and phones, e-mails,
      SSNs and MRNs each from their own pattern. */
  lemma RoutingTable(text: string, d: Detectors)
    ensures var phi, ents := TextPhi(text, d), d.ner(text);
      phi.names == NamesFrom([], text, ents) &&
      phi.addresses == Labelled(text, ents, "GPE") &&
      phi.dates == Labelled(text, ents, "DATE") + Routed(d, text, CustomPatterns, Dates) &&
      phi.phones == Routed(d, text, CustomPatterns, Phones) &&
      phi.emails == Routed(d, text, CustomPatterns, Emails) &&
      phi.ssns == Routed(d, text, CustomPatterns, Ssns) &&
      phi.mrns == Routed(d, text, CustomPatterns, Mrns)
  {
    RoutingFor(text, d, d.ner(text), CustomPatterns);
  }

  /** RoutingTable for any entity list and any pattern list. */
  lemma RoutingFor(text: string, d: Detectors, ents: seq<Entity>, ps: seq<Pattern>)
    ensures var phi := AddPatterns(AddEntities(EmptyPhi, text, ents), d, text, ps);
      phi.names == NamesFrom([], text, ents) &&
      phi.addresses == Labelled(text, ents, "GPE") &&
      phi.dates == Labelled(text, ents, "DATE") + Routed(d, text, ps, Dates) &&
      phi.phones == Routed(d, text, ps, Phones) &&
      phi.emails == Routed(d, text, ps, Emails) &&
      phi.ssns == Routed(d, text, ps, Ssns) &&
      phi.mrns == Routed(d, text, ps, Mrns)
  {
    AddEntitiesBuckets(EmptyPhi, text, ents);
    PatternsOnto(AddEntities(EmptyPhi, text, ents), d, text, ps);
    EmptyConcat(Labelled(text, ents, "GPE"));
    EmptyConcat(Labelled(text, ents, "DATE"));
    EmptyConcat(Routed(d, text, ps, Phones));
    EmptyConcat(Routed(d, text, ps, Emails));
    EmptyConcat(Routed(d, text, ps, Ssns));
    EmptyConcat(Routed(d, text, ps, Mrns));
  }

  /** The pattern loop leaves the names and the addresses alone and appends
      to every other list the matches routed to it. */
  lemma PatternsOnto(e: Phi, d: Detectors, text: string, ps: seq<Pattern>)
    ensures var phi := AddPatterns(e, d, text, ps);
      phi.names == e.names &&
      phi.addresses == e.addresses &&
      phi.dates == e.dates + Routed(d, text, ps, Dates) &&
      phi.phones == e.phones + Routed(d, text, ps, Phones) &&
      phi.emails == e.emails + Routed(d, text, ps, Emails) &&
      phi.ssns == e.ssns + Routed(d, text, ps, Ssns) &&
      phi.mrns == e.mrns + Routed(d, text, ps, Mrns)
  {
    RoutedNever(d, text, ps);
    AddPatternsBucket(e, d, text, ps, Names);
    AddPatternsBucket(e, d, text, ps, Addresses);
    AddPatternsBucket(e, d, text, ps, Dates);
    AddPatternsBucket(e, d, text, ps, Phones);
    AddPatternsBucket(e, d, text, ps, Emails);
    AddPatternsBucket(e, d, text, ps, Ssns);
    AddPatternsBucket(e, d, text, ps, Mrns);
  }

  /** A routed value is exactly the text of a match of a pattern routed to
      that list. */
  lemma {:induction false} RoutedMembers(d: Detectors, text: string, ps: seq<Pattern>, b: Bucket)
    ensures forall x :: x in Routed(d, text, ps, b) <==>
              exists p, m :: p in ps && Route(p) == Some(b) && m in d.finditer(p, text) && x == MatchText(text, m)
    decreases |ps|
  {
    if ps != [] {
      var init, p := ps[..|ps| - 1], ps[|ps| - 1];
      assert ps == init + [p];
      RoutedMembers(d, text, init, b);
      MatchTextsMembers(text, d.finditer(p, text));
    }
  }

  lemma {:induction false} MatchTextsMembers(text: string, ms: seq<Match>)
    ensures forall x :: x in MatchTexts(text, ms) <==> exists m :: m in ms && x == MatchText(text, m)
    decreases |ms|
  {
    if ms != [] {
      var init, m := ms[..|ms| - 1], ms[|ms| - 1];
      assert ms == init + [m];
      MatchTextsMembers(text, init);
    }
  }

  /** A labelled value is exactly the text of an entity carrying the label. */
  lemma {:induction false} LabelledMembers(text: string, ents: seq<Entity>, category: string)
    ensures forall x :: x in Labelled(text, ents, category) <==>
              exists e :: e in ents && e.category == category && x == EntityText(text, e)
    decreases |ents|
  {
    if ents != [] {
      var init, e := ents[..|ents| - 1], ents[|ents| - 1];
      assert ents == init + [e];
      LabelledMembers(text, init, category);
    }
  }

  /** The names list of `extract_phi_info`'s result holds the non-empty
      cleaned names of the PERSON entities, each once, and the addresses list
      the texts of the GPE entities. */
  lemma TextPhiNames(text: string, d: Detectors)
    ensures var phi, ents := TextPhi(text, d), d.ner(text);
      NoDup(phi.names) && [] !in phi.names &&
      (forall x :: x in phi.names <==> exists e :: e in ents && e.category == "PERSON" && x == CleanName(EntityText(text, e)) && x != []) &&
      (forall x :: x in phi.addresses <==> exists e :: e in ents && e.category == "GPE" && x == EntityText(text, e))
  {
    RoutingTable(text, d);
    NamesFromFacts([], text, d.ner(text));
    LabelledMembers(text, d.ner(text), "GPE");
  }

  /** The dates list holds the texts of the DATE entities and of the DOB and
      DATE matches, and nothing else. */
  lemma TextPhiDates(text: string, d: Detectors)
    ensures var phi, ents := TextPhi(text, d), d.ner(text);
      forall x :: x in phi.dates <==>
        (exists e :: e in ents && e.category == "DATE" && x == EntityText(text, e)) ||
        (exists p, m :: (p == Dob || p == Date) && m in d.finditer(p, text) && x == MatchText(text, m))
  {
    RoutingTable(text, d);
    LabelledMembers(text, d.ner(text), "DATE");
    RoutedMembers(d, text, CustomPatterns, Dates);
  }

  /** The phones, e-mails, SSNs and MRNs lists each hold the texts of their
      own pattern's matches and nothing else. */
  lemma TextPhiMatches(text: string, d: Detectors)
    ensures var phi := TextPhi(text, d);
      (forall x :: x in phi.phones <==> exists m :: m in d.finditer(Phone, text) && x == MatchText(text, m)) &&
      (forall x :: x in phi.emails <==> exists m :: m in d.finditer(Email, text) && x == MatchText(text, m)) &&
      (forall x :: x in phi.ssns <==> exists m :: m in d.finditer(Ssn, text) && x == MatchText(text, m)) &&
      (forall x :: x in phi.mrns <==> exists m :: m in d.finditer(Mrn, text) && x == MatchText(text, m))
  {
    RoutingTable(text, d);
    RoutedMembers(d, text, CustomPatterns, Phones);
    RoutedMembers(d, text, CustomPatterns, Emails);
    RoutedMembers(d, text, CustomPatterns, Ssns);
    RoutedMembers(d, text, CustomPatterns, Mrns);
  }

  /** The names list never holds an empty name or the same name twice, and it
      holds exactly the non-empty cleaned texts of the PERSON entities. */
  lemma {:induction false} NamesFromFacts(names: seq<string>, text: string, ents: seq<Entity>)
    requires NoDup(names) && [] !in names
    ensures var r := NamesFrom(names, text, ents);
      NoDup(r) && [] !in r &&
      forall x :: x in r <==>
        x in names || exists e :: e in ents && e.category == "PERSON" && x == CleanName(EntityText(text, e)) && x != []
    decreases |ents|
  {
    if ents != [] {
      var init, e := ents[..|ents| - 1], ents[|ents| - 1];
      assert ents == init + [e];
      NamesFromFacts(names, text, init);
      var before := NamesFrom(names, text, init);
      if e.category == "PERSON" {
        var n := CleanName(EntityText(text, e));
        if n != [] && n !in before {
          forall i, j | 0 <= i < j < |before + [n]|
            ensures (before + [n])[i] != (before + [n])[j]
          {
            if j == |before| {
              assert (before + [n])[i] == before[i];
            }
          }
        }
      }
    }
  }

  // ---------------------------------------------------------------------
  // Merging: `for key in all_phi_info: all_phi_info[key].extend(phi_info.get(key, []))`

  /** The inventory after the merge loop. */
  function Merge(acc: Phi, phi: Option<Phi>): (r: Phi)
    ensures forall b :: Get(r, b) == Get(acc, b) + Lookup(phi, b)
  {
    Phi(acc.names + Lookup(phi, Names), acc.phones + Lookup(phi, Phones), acc.emails + Lookup(phi, Emails),
        acc.ssns + Lookup(phi, Ssns), acc.mrns + Lookup(phi, Mrns), acc.dates + Lookup(phi, Dates),
        acc.addresses + Lookup(phi, Addresses))
  }

  // ---------------------------------------------------------------------
  // Tables and documents

  /** The merge over one row: only string cells contribute. */
  function CellsPhi(acc: Phi, cells: seq<Json>, ex: Extractor): Phi
    decreases |cells|
  {
    if cells == [] then acc
    else
      var cell := cells[|cells| - 1];
      var before := CellsPhi(acc, cells[..|cells| - 1], ex);
      if cell.JString? then Merge(before, Some(ex(cell.s))) else before
  }

  /** The merge over the rows: only list rows contribute. */
  function RowsPhi(acc: Phi, rows: seq<Json>, ex: Extractor): Phi
    decreases |rows|
  {
    if rows == [] then acc
    else
      var row := rows[|rows| - 1];
      var before := RowsPhi(acc, rows[..|rows| - 1], ex);
      if row.JList? then CellsPhi(before, row.items, ex) else before
  }

  /** The inventory `process_table_data` returns: `{}` for a non-list. */
  function TablePhi(t: Json, ex: Extractor): Option<Phi>
  {
    if t.JList? then Some(RowsPhi(EmptyPhi, t.items, ex)) else None
  }

  function TablesPhi(acc: Phi, ts: seq<Table>, ex: Extractor): Phi
    decreases |ts|
  {
    if ts == [] then acc
    else
      var t := ts[|ts| - 1];
      var before := TablesPhi(acc, ts[..|ts| - 1], ex);
      if t.data.Some? then Merge(before, TablePhi(t.data.value, ex)) else before
  }

  function PagePhi(acc: Phi, page: Page, ex: Extractor): Phi
  {
    var afterText := if page.text.Some? then Merge(acc, ValuePhi(page.text.value, ex)) else acc;
    if page.tables.Some? then TablesPhi(afterText, page.tables.value, ex) else afterText
  }

  function PagesPhi(acc: Phi, ps: seq<Page>, ex: Extractor): Phi
    decreases |ps|
  {
    if ps == [] then acc
    else PagePhi(PagesPhi(acc, ps[..|ps| - 1], ex), ps[|ps| - 1], ex)
  }

  /** The merged inventory of a document before duplicates are removed. */
  function DocPhi(doc: Document, ex: Extractor): Phi
  {
    var afterText := if doc.text.Some? then Merge(EmptyPhi, ValuePhi(doc.text.value, ex)) else EmptyPhi;
    var afterPages := if doc.pages.Some? then PagesPhi(afterText, doc.pages.value, ex) else afterText;
    if doc.tables.Some? then TablesPhi(afterPages, doc.tables.value, ex) else afterPages
  }

  // ---------------------------------------------------------------------
  // The strings the walk redacts, in visiting order

  function CellStrings(cells: seq<Json>): seq<string>
    decreases |cells|
  {
    if cells == [] then []
    else
      var cell := cells[|cells| - 1];
      CellStrings(cells[..|cells| - 1]) + (if cell.JString? then [cell.s] else [])
  }

  /** The string cells of the list rows, row by row. */
  function RowStrings(rows: seq<Json>): seq<string>
    decreases |rows|
  {
    if rows == [] then []
    else
      var row := rows[|rows| - 1];
      RowStrings(rows[..|rows| - 1]) + (if row.JList? then CellStrings(row.items) else [])
  }

  function TableStrings(t: Json): seq<string>
  {
    if t.JList? then RowStrings(t.items) else []
  }

  function TablesStrings(ts: seq<Table>): seq<string>
    decreases |ts|
  {
    if ts == [] then []
    else
      var t := ts[|ts| - 1];
      TablesStrings(ts[..|ts| - 1]) + (if t.data.Some? then TableStrings(t.data.value) else [])
  }

  function ValueStrings(v: Option<Json>): seq<string>
  {
    if v.Some? && v.value.JString? then [v.value.s] else []
  }

  function PageStrings(p: Page): seq<string>
  {
    ValueStrings(p.text) + (if p.tables.Some? then TablesStrings(p.tables.value) else [])
  }

  function PagesStrings(ps: seq<Page>): seq<string>
    decreases |ps|
  {
    if ps == [] then [] else PagesStrings(ps[..|ps| - 1]) + PageStrings(ps[|ps| - 1])
  }

  /** Every string the document walk redacts: the root text, each page's text
      and table cells, then the root tables' cells. */
  function DocStrings(doc: Document): seq<string>
  {
    ValueStrings(doc.text) +
    (if doc.pages.Some? then PagesStrings(doc.pages.value) else []) +
    (if doc.tables.Some? then TablesStrings(doc.tables.value) else [])
  }

  /** The list for b of each string's own inventory, concatenated in order. */
  function Concat(texts: seq<string>, ex: Extractor, b: Bucket): seq<string>
    decreases |texts|
  {
    if texts == [] then []
    else Concat(texts[..|texts| - 1], ex, b) + Get(ex(texts[|texts| - 1]), b)
  }

  lemma {:induction false} ConcatAppend(a: seq<string>, c: seq<string>, ex: Extractor, b: Bucket)
    ensures Concat(a + c, ex, b) == Concat(a, ex, b) + Concat(c, ex, b)
    decreases |c|
  {
    if c == [] {
      assert a + c == a;
    } else {
      var init, last := c[..|c| - 1], c[|c| - 1];
      assert (a + c)[..|a + c| - 1] == a + init;
      assert (a + c)[|a + c| - 1] == last;
      ConcatAppend(a, init, ex, b);
      var x, y, z := Concat(a, ex, b), Concat(init, ex, b), Get(ex(last), b);
      assert Concat(a + c, ex, b) == Concat(a + init, ex, b) + z;
      assert Concat(c, ex, b) == y + z;
      ConcatAssoc(x, y, z);
    }
  }

  lemma {:induction false} CellsPhiBucket(acc: Phi, cells: seq<Json>, ex: Extractor, b: Bucket)
    ensures Get(CellsPhi(acc, cells, ex), b) == Get(acc, b) + Concat(CellStrings(cells), ex, b)
    decreases |cells|
  {
    if cells != [] {
      var init, cell := cells[..|cells| - 1], cells[|cells| - 1];
      CellsPhiBucket(acc, init, ex, b);
      var before := CellsPhi(acc, init, ex);
      if cell.JString? {
        ConcatAppend(CellStrings(init), [cell.s], ex, b);
        assert Concat([cell.s], ex, b) == Get(ex(cell.s), b);
        assert CellStrings(cells) == CellStrings(init) + [cell.s];
        assert CellsPhi(acc, cells, ex) == Merge(before, Some(ex(cell.s)));
        var g, x, y := Get(acc, b), Concat(CellStrings(init), ex, b), Get(ex(cell.s), b);
        assert Get(CellsPhi(acc, cells, ex), b) == g + x + y;
        assert Concat(CellStrings(cells), ex, b) == x + y;
        ConcatAssoc(g, x, y);
      } else {
        assert CellStrings(cells) == CellStrings(init);
      }
    }
  }

  lemma {:induction false} RowsPhiBucket(acc: Phi, rows: seq<Json>, ex: Extractor, b: Bucket)
    ensures Get(RowsPhi(acc, rows, ex), b) == Get(acc, b) + Concat(RowStrings(rows), ex, b)
    decreases |rows|
  {
    if rows != [] {
      var init, row := rows[..|rows| - 1], rows[|rows| - 1];
      RowsPhiBucket(acc, init, ex, b);
      var before := RowsPhi(acc, init, ex);
      if row.JList? {
        CellsPhiBucket(before, row.items, ex, b);
        ConcatAppend(RowStrings(init), CellStrings(row.items), ex, b);
        assert RowStrings(rows) == RowStrings(init) + CellStrings(row.items);
        assert RowsPhi(acc, rows, ex) == CellsPhi(before, row.items, ex);
        var g, x, y := Get(acc, b), Concat(RowStrings(init), ex, b), Concat(CellStrings(row.items), ex, b);
        assert Get(RowsPhi(acc, rows, ex), b) == g + x + y;
        assert Concat(RowStrings(rows), ex, b) == x + y;
        ConcatAssoc(g, x, y);
      } else {
        assert RowStrings(rows) == RowStrings(init);
      }
    }
  }

  /** Each list of a table's inventory is the concatenation of the lists of
      its string cells, in row-major order; a non-list table yields `{}`. */
  lemma TablePhiBucket(t: Json, ex: Extractor, b: Bucket)
    ensures TablePhi(t, ex).None? <==> !t.JList?
    ensures Lookup(TablePhi(t, ex), b) == Concat(TableStrings(t), ex, b)
  {
    if t.JList? {
      RowsPhiBucket(EmptyPhi, t.items, ex, b);
      assert Get(EmptyPhi, b) == [];
      assert Lookup(TablePhi(t, ex), b) == Get(RowsPhi(EmptyPhi, t.items, ex), b);
      assert TableStrings(t) == RowStrings(t.items);
    } else {
      assert TableStrings(t) == [];
    }
  }

  lemma ValuePhiBucket(v: Option<Json>, ex: Extractor, b: Bucket)
    requires v.Some?
    ensures Lookup(ValuePhi(v.value, ex), b) == Concat(ValueStrings(v), ex, b)
  {
    if v.value.JString? {
      assert ValueStrings(v) == [v.value.s];
      assert Concat([v.value.s], ex, b) == Get(ex(v.value.s), b);
    }
  }

  lemma {:induction false} TablesPhiBucket(acc: Phi, ts: seq<Table>, ex: Extractor, b: Bucket)
    ensures Get(TablesPhi(acc, ts, ex), b) == Get(acc, b) + Concat(TablesStrings(ts), ex, b)
    decreases |ts|
  {
    if ts != [] {
      var init, t := ts[..|ts| - 1], ts[|ts| - 1];
      TablesPhiBucket(acc, init, ex, b);
      var before := TablesPhi(acc, init, ex);
      if t.data.Some? {
        TablePhiBucket(t.data.value, ex, b);
        ConcatAppend(TablesStrings(init), TableStrings(t.data.value), ex, b);
        assert TablesStrings(ts) == TablesStrings(init) + TableStrings(t.data.value);
        assert TablesPhi(acc, ts, ex) == Merge(before, TablePhi(t.data.value, ex));
        var g, x, y := Get(acc, b), Concat(TablesStrings(init), ex, b), Concat(TableStrings(t.data.value), ex, b);
        assert Get(TablesPhi(acc, ts, ex), b) == g + x + y;
        assert Concat(TablesStrings(ts), ex, b) == x + y;
        ConcatAssoc(g, x, y);
      } else {
        assert TablesStrings(ts) == TablesStrings(init);
      }
    }
  }

  lemma PagePhiBucket(acc: Phi, p: Page, ex: Extractor, b: Bucket)
    ensures Get(PagePhi(acc, p, ex), b) == Get(acc, b) + Concat(PageStrings(p), ex, b)
  {
    var textPart := ValueStrings(p.text);
    var rest := if p.tables.Some? then TablesStrings(p.tables.value) else [];
    var afterText := if p.text.Some? then Merge(acc, ValuePhi(p.text.value, ex)) else acc;
    if p.text.Some? {
      ValuePhiBucket(p.text, ex, b);
    } else {
      assert Concat(textPart, ex, b) == [];
    }
    assert Get(afterText, b) == Get(acc, b) + Concat(textPart, ex, b);
    if p.tables.Some? {
      TablesPhiBucket(afterText, p.tables.value, ex, b);
    } else {
      assert Concat(rest, ex, b) == [];
    }
    assert Get(PagePhi(acc, p, ex), b) == Get(afterText, b) + Concat(rest, ex, b);
    ConcatAppend(textPart, rest, ex, b);
    assert PageStrings(p) == textPart + rest;
    var g, c1, c2 := Get(acc, b), Concat(textPart, ex, b), Concat(rest, ex, b);
    ConcatAssoc(g, c1, c2);
  }

  lemma {:induction false} PagesPhiBucket(acc: Phi, ps: seq<Page>, ex: Extractor, b: Bucket)
    ensures Get(PagesPhi(acc, ps, ex), b) == Get(acc, b) + Concat(PagesStrings(ps), ex, b)
    decreases |ps|
  {
    if ps != [] {
      var init, p := ps[..|ps| - 1], ps[|ps| - 1];
      PagesPhiBucket(acc, init, ex, b);
      PagePhiBucket(PagesPhi(acc, init, ex), p, ex, b);
      ConcatAppend(PagesStrings(init), PageStrings(p), ex, b);
      assert PagesStrings(ps) == PagesStrings(init) + PageStrings(p);
      var g, x, y := Get(acc, b), Concat(PagesStrings(init), ex, b), Concat(PageStrings(p), ex, b);
      assert Get(PagesPhi(acc, ps, ex), b) == g + x + y;
      assert Concat(PagesStrings(ps), ex, b) == x + y;
      ConcatAssoc(g, x, y);
    }
  }

  /** Before duplicates are removed, each list of the document's inventory is
      the concatenation of the lists of every string the walk redacts, in
      the order it visits them. */
  lemma DocBuckets(doc: Document, ex: Extractor, b: Bucket)
    ensures Get(DocPhi(doc, ex), b) == Concat(DocStrings(doc), ex, b)
  {
    var afterText := if doc.text.Some? then Merge(EmptyPhi, ValuePhi(doc.text.value, ex)) else EmptyPhi;
    if doc.text.Some? {
      ValuePhiBucket(doc.text, ex, b);
    }
    assert Get(afterText, b) == Concat(ValueStrings(doc.text), ex, b);
    var pagesPart := if doc.pages.Some? then PagesStrings(doc.pages.value) else [];
    var tablesPart := if doc.tables.Some? then TablesStrings(doc.tables.value) else [];
    var afterPages := if doc.pages.Some? then PagesPhi(afterText, doc.pages.value, ex) else afterText;
    if doc.pages.Some? {
      PagesPhiBucket(afterText, doc.pages.value, ex, b);
    }
    if doc.tables.Some? {
      TablesPhiBucket(afterPages, doc.tables.value, ex, b);
    }
    ConcatAppend(ValueStrings(doc.text), pagesPart, ex, b);
    ConcatAppend(ValueStrings(doc.text) + pagesPart, tablesPart, ex, b);
    var c0, c1, c2 := Concat(ValueStrings(doc.text), ex, b), Concat(pagesPart, ex, b), Concat(tablesPart, ex, b);
    if doc.pages.None? {
      assert c1 == [] && c0 + c1 == c0;
    }
    assert Get(afterPages, b) == c0 + c1;
    if doc.tables.None? {
      assert c2 == [] && c0 + c1 + c2 == c0 + c1;
    }
    assert DocStrings(doc) == ValueStrings(doc.text) + pagesPart + tablesPart;
    assert Get(DocPhi(doc, ex), b) == c0 + c1 + c2;
  }

  /** A value is in the concatenation iff some text's own list holds it. */
  lemma {:induction false} ConcatMembers(texts: seq<string>, ex: Extractor, b: Bucket)
    ensures forall x :: x in Concat(texts, ex, b) <==> exists t :: t in texts && x in Get(ex(t), b)
    decreases |texts|
  {
    if texts != [] {
      var init, last := texts[..|texts| - 1], texts[|texts| - 1];
      assert texts == init + [last];
      ConcatMembers(init, ex, b);
    }
  }

  /** A value is listed under a key of the document's inventory iff the
      inventory of some string the walk redacts lists it under that key. */
  lemma DocMembers(doc: Document, ex: Extractor, b: Bucket)
    ensures forall x :: x in Get(DocPhi(doc, ex), b) <==> exists t :: t in DocStrings(doc) && x in Get(ex(t), b)
  {
    DocBuckets(doc, ex, b);
    ConcatMembers(DocStrings(doc), ex, b);
  }

  // ---------------------------------------------------------------------
  // Removing duplicates: `list(set(xs))`

  /** One ordering of the distinct values of xs. Python's set leaves the order
      unspecified, so the contract says only what every ordering shares. */
  function Distinct(xs: seq<string>): (r: seq<string>)
    ensures NoDup(r)
    ensures forall x :: x in r <==> x in xs
    decreases |xs|
  {
    if xs == [] then []
    else
      var rest := Distinct(xs[..|xs| - 1]);
      var x := xs[|xs| - 1];
      assert forall y :: y in xs <==> y in xs[..|xs| - 1] || y == x by {
        assert xs == xs[..|xs| - 1] + [x];
      }
      if x in rest then rest
      else
        assert forall i :: 0 <= i < |rest| ==> (rest + [x])[i] == rest[i];
        rest + [x]
  }
}
