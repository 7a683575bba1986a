/** The quick-analysis page: the pasted code list, the analysis call and the
    codes reported as not found. */
module QuickAnalysis {
  import opened Common
  import opened Domain
  import opened Catalog
  import opened Store

  function TrimAll(parts: seq<string>): (r: seq<string>)
    ensures |r| == |parts| && forall k :: 0 <= k < |parts| ==> r[k] == Trim(parts[k])
  {
    seq(|parts|, k requires 0 <= k < |parts| => Trim(parts[k]))
  }

  predicate NonEmpty(c: string) {
    c != ""
  }

  /** `.map(c => c.trim()).filter(Boolean)`: the trimmed non-empty pieces. */
  function CleanCodes(pieces: seq<string>): (r: seq<string>)
    ensures forall k :: 0 <= k < |r| ==> r[k] != "" && Trim(r[k]) == r[k] && r[k] in TrimAll(pieces)
    ensures forall c :: c in TrimAll(pieces) && c != "" ==> c in r
  {
    TrimAllTrimmed(pieces);
    Filter(TrimAll(pieces), NonEmpty)
  }

  /** The cleaning keeps the order of the pieces and each non-empty code as often as it
      was typed. */
  lemma CleanCodesKeepsRepeats(pieces: seq<string>)
    ensures IsSubsequence(CleanCodes(pieces), TrimAll(pieces))
    ensures forall c :: multiset(CleanCodes(pieces))[c] == if c != "" then multiset(TrimAll(pieces))[c] else 0
  {
    FilterIsSubsequence(TrimAll(pieces), NonEmpty);
    FilterMultiset(TrimAll(pieces), NonEmpty);
  }

  /** The code list: the input split into lines, as cleaned above. */
  function CodeList(text: string): seq<string> {
    CleanCodes(Split(text, '\n'))
  }

  lemma TrimAllTrimmed(parts: seq<string>)
    ensures forall c :: c in TrimAll(parts) ==> Trim(c) == c
  {
    forall c | c in TrimAll(parts) ensures Trim(c) == c {
      var j :| 0 <= j < |parts| && TrimAll(parts)[j] == c;
      TrimIdempotent(parts[j]);
    }
  }

  /** The lower-cased codes of the reported items. */
  function FoundCodes(results: seq<FullItemData>): set<string> {
    set k | 0 <= k < |results| :: Lower(results[k].Code())
  }

  /** No reported item's code equals `c` once both are lower-cased. */
  predicate Unreported(c: string, results: seq<FullItemData>) {
    forall j :: 0 <= j < |results| ==> Lower(results[j].Code()) != Lower(c)
  }

  lemma UnreportedIffNotFound(c: string, results: seq<FullItemData>)
    ensures Unreported(c, results) <==> Lower(c) !in FoundCodes(results)
  {
    if !Unreported(c, results) {
      var j :| 0 <= j < |results| && Lower(results[j].Code()) == Lower(c);
      assert Lower(results[j].Code()) in FoundCodes(results);
    }
  }

  /** notFound: the listed codes, in order and with repeats, whose lower-cased form is no
      reported item's lower-cased code. */
  function NotFound(codeList: seq<string>, results: seq<FullItemData>): (r: seq<string>)
    ensures forall k :: 0 <= k < |r| ==> r[k] in codeList && Unreported(r[k], results)
    ensures forall k :: 0 <= k < |codeList| && Unreported(codeList[k], results) ==> codeList[k] in r
    ensures IsSubsequence(r, codeList)
    ensures forall c :: multiset(r)[c] == if Unreported(c, results) then multiset(codeList)[c] else 0
  {
    var found := FoundCodes(results);
    var p := (c: string) => Lower(c) !in found;
    var r := Filter(codeList, p);
    FilterIsSubsequence(codeList, p);
    FilterMultiset(codeList, p);
    forall c ensures p(c) <==> Unreported(c, results) {
      UnreportedIffNotFound(c, results);
    }
    r
  }

  /** What the page shows after a click on the analyse button. */
  datatype AnalysisView =
    | Unchanged                                              // blank input: nothing happens
    | StillLoading                                           // the lookup never settles: results cleared, spinner left on
    | Shown(results: seq<FullItemData>, notFound: seq<string>)

  /** handleAnalyze, with apiAnalyzeCodes read from the store. */
  function HandleAnalyze(db: MockDatabase, text: string, today: int): (v: AnalysisView)
    reads db
    requires db.Valid()
    ensures Trim(text) == "" <==> v.Unchanged?
    ensures v.StillLoading? <==> Trim(text) != "" && db.AnalyzeCodes(CodeList(text), today).Err?
    ensures v.Shown? ==> v.results == db.AnalyzeCodes(CodeList(text), today).value && v.notFound == NotFound(CodeList(text), v.results)
  {
    if Trim(text) == "" then Unchanged
    else
      var codeList := CodeList(text);
      match db.AnalyzeCodes(codeList, today)
      case Err(_) => StillLoading
      case Ok(results) => Shown(results, NotFound(codeList, results))
  }

  /** A listed code none of whose catalogue items has a sales snapshot is reported as not
      found, even when the catalogue holds that code. */
  lemma UnsoldReportedNotFound(items: seq<Item>, sales: seq<SalesSnapshot>, policy: PolicyParams, today: int, text: string, c: string)
    requires Purchasable(items) && c in CodeList(text)
    requires forall i :: 0 <= i < |items| && Lower(items[i].code) == Lower(c) ==> SaleFor(sales, items[i].id).None?
    ensures c in NotFound(CodeList(text), Analyze(items, sales, policy, today, CodeList(text)))
  {
    var codeList := CodeList(text);
    var r := Analyze(items, sales, policy, today, codeList);
    AnalyzeSound(items, sales, policy, today, codeList);
    forall j | 0 <= j < |r| ensures Lower(r[j].Code()) != Lower(c) {
      var i :| 0 <= i < |items| && items[i] == r[j].item;
    }
  }

  /** A listed code, in any case, of a catalogue item with a snapshot is not reported as
      not found. */
  lemma SoldNotReported(items: seq<Item>, sales: seq<SalesSnapshot>, policy: PolicyParams, today: int, text: string, c: string, i: nat)
    requires Purchasable(items) && c in CodeList(text)
    requires i < |items| && SaleFor(sales, items[i].id).Some? && Lower(items[i].code) == Lower(c)
    ensures c !in NotFound(CodeList(text), Analyze(items, sales, policy, today, CodeList(text)))
  {
    var codeList := CodeList(text);
    AnalyzeFinds(items, sales, policy, today, codeList, i, c);
  }
}
