/**
 * Evidence resolution (class `Eco` of goa_specs.py): mapping an ECO code back
 * to a GAF evidence code, and choosing the reference token of a GAF/GPAD
 * `DB_Reference` field and looking up `evidence-reference` in an evidence map,
 * falling back to `evidence-Default`.
 *
 * The reference tables (`COLLECTION`, `GAF_ECO_MAP`, `ECO_EVIDENCE_MAP`, ...)
 * are parameters: they are read from files that are not part of this model.
 */
module Eco {
  import opened Strings

  /**
   * The reference tables that `Goref._init` and `Eco._init` load, read-only
   * while a file is converted: the GO database abbreviations (the keys of
   * `GO_DATABASES`), `COLLECTION`, `GO_ONTOLOGY_MAP` (GO id to aspect),
   * `GAF_ECO_MAP` and `ECO_GOREF2EVIDENCE_MAP`.
   */
  datatype References = References(
    goDatabases: set<string>,
    collection: map<string, string>,
    goOntologyMap: map<string, string>,
    gafEcoMap: map<string, string>,
    ecoGoref2EvidenceMap: map<string, string>)

  /** A lookup that either succeeds or raises `KeyError` for `missingKey`. */
  datatype Result<T> = Success(value: T) | Failure(missingKey: string)

  /** Whether a converter's row loop is still going, or stopped by the `KeyError` of `getECO_code` on a key. */
  datatype Halt = Running | Halted(missingKey: string)

  /** `Eco.getEvidence_code`: the evidence code for an ECO code, or "" when it has none. */
  function EvidenceCode(ecoEvidenceMap: map<string, string>, ecoCode: string): (e: string)
    ensures Strip(ecoCode) in ecoEvidenceMap ==> e == ecoEvidenceMap[Strip(ecoCode)]
    ensures Strip(ecoCode) !in ecoEvidenceMap ==> e == ""
  {
    var code := Strip(ecoCode);
    if code in ecoEvidenceMap then ecoEvidenceMap[code] else ""
  }

  /** Surrounding whitespace on the ECO code never changes the answer. */
  lemma EvidenceCodeIgnoresPadding(ecoEvidenceMap: map<string, string>, ecoCode: string)
    ensures EvidenceCode(ecoEvidenceMap, Strip(ecoCode)) == EvidenceCode(ecoEvidenceMap, ecoCode)
  {
    StripIdempotent(ecoCode);
  }

  /** The kinds of reference token the scan recognises, by substring, in this order. */
  datatype RefKind = GoRefToken | MgiToken | PubmedToken | JToken | OtherToken

  function KindOf(token: string): RefKind
  {
    if Contains(token, "GO_REF:") then GoRefToken
    else if Contains(token, "MGI:") then MgiToken
    else if Contains(token, "PMID:") then PubmedToken
    else if Contains(token, "J:") then JToken
    else OtherToken
  }

  /**
   * What the scan stores for a (stripped) token: the token itself, except an
   * MGI token with three or more colon parts, which keeps only its second part.
   */
  function Recorded(token: string): string
  {
    if KindOf(token) == MgiToken then
      var parts := Split(token, ':');
      if |parts| <= 2 then token else parts[1]
    else token
  }

  /** The four locals of the scan: the last GO_REF, MGI, PMID and J reference seen. */
  datatype RefScan = RefScan(goRef: string, mgiRef: string, pubmedRef: string, jRef: string)

  const EmptyScan := RefScan("", "", "", "")

  /** The local that a kind of token is stored in ("" for tokens of no kind). */
  function Slot(s: RefScan, kind: RefKind): string
  {
    match kind
    case GoRefToken => s.goRef
    case MgiToken => s.mgiRef
    case PubmedToken => s.pubmedRef
    case JToken => s.jRef
    case OtherToken => ""
  }

  /** One iteration of the token loop: strip the token and store it in the local of its kind. */
  function ScanStep(s: RefScan, token: string): (s': RefScan)
  {
    var t := Strip(token);
    match KindOf(t)
    case GoRefToken => s.(goRef := t)
    case MgiToken => s.(mgiRef := Recorded(t))
    case PubmedToken => s.(pubmedRef := t)
    case JToken => s.(jRef := t)
    case OtherToken => s
  }

  /** The state after scanning the first `n` tokens left to right. */
  function ScanPrefix(tokens: seq<string>, n: nat): RefScan
    requires n <= |tokens|
  {
    if n == 0 then EmptyScan
    else ScanStep(ScanPrefix(tokens, n - 1), tokens[n - 1])
  }

  /** The state after scanning all of `tokens`. */
  function ScanTokens(tokens: seq<string>): RefScan
  {
    ScanPrefix(tokens, |tokens|)
  }

  /** The fallback key `evidence+"-"+"Default"` is the text `evidence-Default`. */
  lemma DefaultKey(evidence: string)
    ensures evidence + "-" + "Default" == evidence + "-Default"
  {
  }

  /** The position of the last of the first `n` tokens that has a kind, or -1 when there is none. */
  function LastBefore(tokens: seq<string>, n: nat, kind: RefKind): (i: int)
    requires n <= |tokens|
    ensures -1 <= i < n
    ensures i >= 0 ==> KindOf(Strip(tokens[i])) == kind
    ensures forall j :: i < j < n ==> KindOf(Strip(tokens[j])) != kind
  {
    if n == 0 then -1
    else if KindOf(Strip(tokens[n - 1])) == kind then n - 1
    else LastBefore(tokens, n - 1, kind)
  }

  /** The position of the last token of a kind, or -1 when there is none. */
  function LastOfKind(tokens: seq<string>, kind: RefKind): (i: int)
    ensures -1 <= i < |tokens|
    ensures i >= 0 ==> KindOf(Strip(tokens[i])) == kind
    ensures forall j :: i < j < |tokens| ==> KindOf(Strip(tokens[j])) != kind
  {
    LastBefore(tokens, |tokens|, kind)
  }

  /** The value the last token of a kind leaves in its local, or "" when no token has that kind. */
  function LastRecorded(tokens: seq<string>, kind: RefKind): string
  {
    var i := LastOfKind(tokens, kind);
    if i < 0 then "" else Recorded(Strip(tokens[i]))
  }

  lemma {:induction false} ScanPrefixKeepsLast(tokens: seq<string>, n: nat, kind: RefKind)
    requires n <= |tokens| && kind != OtherToken
    ensures var i := LastBefore(tokens, n, kind);
      Slot(ScanPrefix(tokens, n), kind) == if i < 0 then "" else Recorded(Strip(tokens[i]))
  {
    if n > 0 {
      ScanPrefixKeepsLast(tokens, n - 1, kind);
      var t := Strip(tokens[n - 1]);
      var prev := ScanPrefix(tokens, n - 1);
      assert ScanPrefix(tokens, n) == ScanStep(prev, tokens[n - 1]);
      if KindOf(t) == kind {
        assert LastBefore(tokens, n, kind) == n - 1;
        assert Slot(ScanStep(prev, tokens[n - 1]), kind) == Recorded(t);
      } else {
        assert LastBefore(tokens, n, kind) == LastBefore(tokens, n - 1, kind);
        assert Slot(ScanStep(prev, tokens[n - 1]), kind) == Slot(prev, kind);
      }
    }
  }

  /** Last match wins: each local of the scan holds what the last token of its kind recorded. */
  lemma ScanKeepsLast(tokens: seq<string>, kind: RefKind)
    requires kind != OtherToken
    ensures Slot(ScanTokens(tokens), kind) == LastRecorded(tokens, kind)
  {
    ScanPrefixKeepsLast(tokens, |tokens|, kind);
  }

  /**
   * The reference chosen after the scan: a GO_REF token, else the MGI, PMID or
   * J reference (the first that is non-empty), else the first token as split,
   * without stripping.
   */
  function ChooseRef(s: RefScan, tokens: seq<string>): string
    requires |tokens| >= 1
  {
    if s.goRef != "" then s.goRef
    else if s.mgiRef != "" then s.mgiRef
    else if s.pubmedRef != "" then s.pubmedRef
    else if s.jRef != "" then s.jRef
    else tokens[0]
  }

  /** A token containing a marker is non-empty after stripping, so it is a real choice. */
  lemma StrippedMarkerNonEmpty(t: string, marker: string)
    requires |marker| > 0 && Contains(t, marker)
    ensures t != ""
  {
    ContainsLength(t, marker);
  }

  /** The chosen reference, with the collection lookup applied and the result stripped. */
  function ResolveRef(tokens: seq<string>, collection: map<string, string>): string
    requires |tokens| >= 1
  {
    var ref := ChooseRef(ScanTokens(tokens), tokens);
    Strip(if ref in collection then collection[ref] else ref)
  }

  /**
   * `Eco.getECO_code`: look up `evidence-reference` in the evidence map, else
   * `evidence-Default`; when neither key exists the source raises `KeyError`.
   */
  function EcoCode(goref: string, evidence: string, collection: map<string, string>,
                   evidenceMap: map<string, string>): (r: Result<string>)
    ensures var key := Strip(evidence) + "-" + ResolveRef(Split(goref, '|'), collection);
      key in evidenceMap ==> r == Success(evidenceMap[key])
    ensures var key := Strip(evidence) + "-" + ResolveRef(Split(goref, '|'), collection);
      key !in evidenceMap && Strip(evidence) + "-Default" in evidenceMap ==>
        r == Success(evidenceMap[Strip(evidence) + "-Default"])
    ensures r.Failure? <==>
      Strip(evidence) + "-" + ResolveRef(Split(goref, '|'), collection) !in evidenceMap &&
      Strip(evidence) + "-Default" !in evidenceMap
    ensures r.Failure? ==> r.missingKey == Strip(evidence) + "-Default"
  {
    var ev := Strip(evidence);
    var key := ev + "-" + ResolveRef(Split(goref, '|'), collection);
    if key in evidenceMap then Success(evidenceMap[key])
    else if ev + "-Default" in evidenceMap then Success(evidenceMap[ev + "-Default"])
    else Failure(ev + "-Default")
  }

  /** The scanning loop of `getECO_code`, with its four locals. */
  method GetEcoCode(goref: string, evidence: string, collection: map<string, string>,
                    evidenceMap: map<string, string>) returns (r: Result<string>)
    ensures r == EcoCode(goref, evidence, collection, evidenceMap)
  {
    var evidenceCode := Strip(evidence);
    var gorefIds := Split(goref, '|');
    var mgiRef, jRef, goRef, pubmedRef := "", "", "", "";
    var i := 0;
    while i < |gorefIds|
      invariant 0 <= i <= |gorefIds|
      invariant RefScan(goRef, mgiRef, pubmedRef, jRef) == ScanPrefix(gorefIds, i)
    {
      ghost var before := RefScan(goRef, mgiRef, pubmedRef, jRef);
      var token := Strip(gorefIds[i]);
      if Contains(token, "GO_REF:") {
        assert ScanStep(before, gorefIds[i]) == before.(goRef := token);
        goRef := token;
      } else if Contains(token, "MGI:") {
        assert ScanStep(before, gorefIds[i]) == before.(mgiRef := Recorded(token));
        var fields := Split(token, ':');
        if |fields| <= 2 {
          mgiRef := token;
        } else {
          mgiRef := fields[1];
        }
        assert mgiRef == Recorded(token);
      } else if Contains(token, "PMID:") {
        assert ScanStep(before, gorefIds[i]) == before.(pubmedRef := token);
        pubmedRef := token;
      } else if Contains(token, "J:") {
        assert ScanStep(before, gorefIds[i]) == before.(jRef := token);
        jRef := token;
      } else {
        assert ScanStep(before, gorefIds[i]) == before;
      }
      assert RefScan(goRef, mgiRef, pubmedRef, jRef) == ScanStep(before, gorefIds[i]);
      i := i + 1;
    }
    ghost var chosen := ChooseRef(ScanTokens(gorefIds), gorefIds);
    if goRef == "" {
      if mgiRef != "" {
        goRef := mgiRef;
      } else if pubmedRef != "" {
        goRef := pubmedRef;
      } else if jRef != "" {
        goRef := jRef;
      } else {
        goRef := gorefIds[0];
      }
    }
    assert goRef == chosen;
    if goRef in collection {
      goRef := collection[goRef];
    }
    goRef := Strip(goRef);
    assert goRef == ResolveRef(gorefIds, collection);
    var key := evidenceCode + "-" + goRef;
    if key in evidenceMap {
      r := Success(evidenceMap[key]);
    } else {
      key := evidenceCode + "-" + "Default";
      DefaultKey(evidenceCode);
      if key in evidenceMap {
        r := Success(evidenceMap[key]);
      } else {
        r := Failure(key);
      }
    }
  }

  /** Any GO_REF token beats every other reference: the last one is chosen. */
  lemma GoRefWins(tokens: seq<string>)
    requires |tokens| >= 1
    requires LastOfKind(tokens, GoRefToken) >= 0
    ensures ChooseRef(ScanTokens(tokens), tokens) == Strip(tokens[LastOfKind(tokens, GoRefToken)])
  {
    ScanKeepsLast(tokens, GoRefToken);
    StrippedMarkerNonEmpty(Strip(tokens[LastOfKind(tokens, GoRefToken)]), "GO_REF:");
  }

  /** Without a GO_REF token, a non-empty MGI reference is chosen. */
  lemma MgiBeforePubmed(tokens: seq<string>)
    requires |tokens| >= 1
    requires LastOfKind(tokens, GoRefToken) < 0
    requires LastRecorded(tokens, MgiToken) != ""
    ensures ChooseRef(ScanTokens(tokens), tokens) == LastRecorded(tokens, MgiToken)
  {
    ScanKeepsLast(tokens, GoRefToken);
    ScanKeepsLast(tokens, MgiToken);
  }

  /** Without a GO_REF token or a usable MGI reference, the last PMID token is chosen. */
  lemma PubmedBeforeJ(tokens: seq<string>)
    requires |tokens| >= 1
    requires LastOfKind(tokens, GoRefToken) < 0
    requires LastRecorded(tokens, MgiToken) == ""
    requires LastOfKind(tokens, PubmedToken) >= 0
    ensures ChooseRef(ScanTokens(tokens), tokens) == Strip(tokens[LastOfKind(tokens, PubmedToken)])
  {
    ScanKeepsLast(tokens, GoRefToken);
    ScanKeepsLast(tokens, MgiToken);
    ScanKeepsLast(tokens, PubmedToken);
    StrippedMarkerNonEmpty(Strip(tokens[LastOfKind(tokens, PubmedToken)]), "PMID:");
  }

  /** With only J references among the recognised kinds, the last J token is chosen. */
  lemma JBeforeFirstToken(tokens: seq<string>)
    requires |tokens| >= 1
    requires LastOfKind(tokens, GoRefToken) < 0
    requires LastRecorded(tokens, MgiToken) == ""
    requires LastOfKind(tokens, PubmedToken) < 0
    requires LastOfKind(tokens, JToken) >= 0
    ensures ChooseRef(ScanTokens(tokens), tokens) == Strip(tokens[LastOfKind(tokens, JToken)])
  {
    ScanKeepsLast(tokens, GoRefToken);
    ScanKeepsLast(tokens, MgiToken);
    ScanKeepsLast(tokens, PubmedToken);
    ScanKeepsLast(tokens, JToken);
    StrippedMarkerNonEmpty(Strip(tokens[LastOfKind(tokens, JToken)]), "J:");
  }

  /** When no token is of a recognised kind, the first token is chosen exactly as split. */
  lemma FirstTokenOtherwise(tokens: seq<string>)
    requires |tokens| >= 1
    requires forall j :: 0 <= j < |tokens| ==> KindOf(Strip(tokens[j])) == OtherToken
    ensures ChooseRef(ScanTokens(tokens), tokens) == tokens[0]
  {
    ScanKeepsLast(tokens, GoRefToken);
    ScanKeepsLast(tokens, MgiToken);
    ScanKeepsLast(tokens, PubmedToken);
    ScanKeepsLast(tokens, JToken);
  }

  /**
   * A three-part MGI token such as `MGI:MGI:123` records only its middle part,
   * so the reference looked up is `MGI`, not the accession.
   */
  lemma MgiThreePart(a: string, b: string, c: string)
    requires ':' !in a && ':' !in b
    requires KindOf(a + ":" + b + ":" + c) == MgiToken
    ensures Recorded(a + ":" + b + ":" + c) == b
  {
    var t := a + ":" + b + ":" + c;
    assert t == a + [':'] + (b + [':'] + c);
    SplitCons(a, ':', b + [':'] + c);
    SplitCons(b, ':', c);
  }

  /** `empty_goref_containers`: 1 when the ontology map or the collection is empty. */
  function EmptyGorefContainers(goOntologyMap: map<string, string>, collection: map<string, string>): (r: int)
    ensures r == 0 || r == 1
    ensures r == 1 <==> |goOntologyMap| == 0 || |collection| == 0
  {
    if |goOntologyMap| <= 0 || |collection| <= 0 then 1 else 0
  }

  /** `empty_eco_containers`: 1 when any of the three ECO maps is empty. */
  function EmptyEcoContainers(gafEcoMap: map<string, string>, ecoEvidenceMap: map<string, string>,
                              mgiEcoMap: map<string, string>): (r: int)
    ensures r == 0 || r == 1
    ensures r == 1 <==> |gafEcoMap| == 0 || |ecoEvidenceMap| == 0 || |mgiEcoMap| == 0
  {
    if |gafEcoMap| <= 0 || |ecoEvidenceMap| <= 0 || |mgiEcoMap| <= 0 then 1 else 0
  }
}
