/**
 * The EDGAR client of backend/scraper.py: ticker-to-CIK lookup, the
 * listing of a company's recent filings, and the length cap on a filing's
 * text. Every HTTP response is an input; a request that fails or a body
 * that is not JSON is `Unavailable`.
 */
module Scraper {
  import opened Wrappers
  import opened Text

  /** The outcome of one HTTP request whose body was decoded into a `T`. */
  datatype Fetch<T> = Unavailable | Fetched(body: T)

  /**
   * One value of https://www.sec.gov/files/company_tickers.json.
   * A key that is missing from the entry is `None`.
   */
  datatype TickerEntry = TickerEntry(ticker: Option<string>, cikStr: Option<nat>)

  /** `filings.recent` of a submissions document: column name to column. */
  type Recent = map<string, seq<string>>

  /**
   * A submissions document, reduced to `filings.recent`. A document without
   * `filings` or without `recent` reads as the empty dictionary, as
   * `data.get("filings", {}).get("recent", {})` does.
   */
  datatype Submissions = Submissions(recent: Recent)

  /**
   * What EDGAR answers while one operation runs: the ticker table, and the
   * submissions document for each CIK (zero-padded, as in the request URL
   * https://data.sec.gov/submissions/CIK{cik}.json). A CIK without an entry
   * stands for a request that failed.
   */
  datatype Edgar = Edgar(tickers: Fetch<seq<TickerEntry>>, submissions: map<string, Submissions>)

  /** One record of the listing, with the keys the source's dictionaries have. */
  datatype Filing = Filing(
    ticker: string,
    cik: string,
    form: string,
    accessionNumber: string,
    filingDate: string,
    reportDate: string,
    url: string)

  const CikWidth: nat := 10
  const MaxFilings: nat := 10
  const MaxTextChars: nat := 100000
  const ArchivesBase: string := "https://www.sec.gov/Archives/edgar/data/"

  const AccessionColumn: string := "accessionNumber"
  const FormColumn: string := "form"
  const DocumentColumn: string := "primaryDocument"
  const FilingDateColumn: string := "filingDate"
  const ReportDateColumn: string := "reportDate"

  // ---------------------------------------------------------------------
  // get_cik

  /** The CIK string the source returns for a table entry's `cik_str`. */
  function PaddedCik(n: nat): string {
    ZFill(Decimal(n), CikWidth)
  }

  /**
   * What the scan of the ticker table finds for the (already upper-cased)
   * `key`: the padded CIK of the first entry whose ticker is `key`, and
   * `None` when no entry matches or an entry lacks a key the scan reads.
   */
  function CikFor(entries: seq<TickerEntry>, key: string): (r: Option<string>)
    ensures r.Some? ==> |r.value| >= CikWidth && AllDigits(r.value)
  {
    if entries == [] then None
    else match entries[0].ticker
      case None => None
      case Some(t) =>
        if t == key then
          match entries[0].cikStr
          case None => None
          case Some(n) => Some(PaddedCik(n))
        else CikFor(entries[1..], key)
  }

  /** `get_cik(ticker)` given the response to the ticker-table request. */
  function Cik(tickers: Fetch<seq<TickerEntry>>, ticker: string): (r: Option<string>)
    ensures tickers.Unavailable? ==> r == None
    ensures r.Some? ==> |r.value| >= CikWidth && AllDigits(r.value)
  {
    match tickers
    case Unavailable => None
    case Fetched(entries) => CikFor(entries, Upper(ticker))
  }

  /** Entry `i` is the first one whose ticker is `key`, and every entry before it has a ticker. */
  ghost predicate FirstMatch(entries: seq<TickerEntry>, key: string, i: nat) {
    i < |entries| && entries[i].ticker == Some(key) &&
    forall j :: 0 <= j < i ==> entries[j].ticker.Some? && entries[j].ticker.value != key
  }

  /** A CIK is only ever returned for the first matching entry, padded from its `cik_str`. */
  lemma {:induction false} CikForIsFirstMatch(entries: seq<TickerEntry>, key: string)
    requires CikFor(entries, key).Some?
    ensures exists i: nat :: FirstMatch(entries, key, i) && entries[i].cikStr.Some? &&
                        CikFor(entries, key).value == PaddedCik(entries[i].cikStr.value)
  {
    var t := entries[0].ticker.value;
    if t == key {
      assert FirstMatch(entries, key, 0);
    } else {
      CikForIsFirstMatch(entries[1..], key);
      var i: nat :| FirstMatch(entries[1..], key, i) && entries[1..][i].cikStr.Some? &&
               CikFor(entries[1..], key).value == PaddedCik(entries[1..][i].cikStr.value);
      assert FirstMatch(entries, key, i + 1);
    }
  }

  /** The first matching entry with a `cik_str` gives its padded CIK. */
  lemma {:induction false} FirstMatchGivesCik(entries: seq<TickerEntry>, key: string, i: nat, n: nat)
    requires FirstMatch(entries, key, i) && entries[i].cikStr == Some(n)
    ensures CikFor(entries, key) == Some(PaddedCik(n))
  {
    if i > 0 {
      assert entries[0].ticker.Some? && entries[0].ticker.value != key;
      assert FirstMatch(entries[1..], key, i - 1);
      FirstMatchGivesCik(entries[1..], key, i - 1, n);
    }
  }

  /** A well-formed table with no entry for `key` gives `None`. */
  lemma {:induction false} NoMatchGivesNone(entries: seq<TickerEntry>, key: string)
    requires forall j :: 0 <= j < |entries| ==> entries[j].ticker.Some? && entries[j].ticker.value != key
    ensures CikFor(entries, key) == None
  {
    if entries != [] {
      NoMatchGivesNone(entries[1..], key);
    }
  }

  /** An entry without a `ticker` key, reached before any match, makes the whole lookup fail. */
  lemma {:induction false} MalformedEntryGivesNone(entries: seq<TickerEntry>, key: string, i: nat)
    requires i < |entries| && entries[i].ticker.None?
    requires forall j :: 0 <= j < i ==> entries[j].ticker.Some? && entries[j].ticker.value != key
    ensures CikFor(entries, key) == None
  {
    if i > 0 {
      MalformedEntryGivesNone(entries[1..], key, i - 1);
    }
  }

  /** The padded CIK is at least ten digits long and reads back as the table's number. */
  lemma PaddedCikDigits(n: nat)
    ensures |PaddedCik(n)| >= CikWidth && AllDigits(PaddedCik(n))
    ensures ParseDecimal(PaddedCik(n)) == n
  {
    ParseZFilledDecimal(n, CikWidth);
  }

  /**
   * get_cik: upper-cases the ticker and scans the table in order, returning
   * at the first entry whose ticker matches.
   */
  method GetCik(tickers: Fetch<seq<TickerEntry>>, ticker: string) returns (cik: Option<string>)
    ensures cik == Cik(tickers, ticker)
    ensures cik.Some? ==> |cik.value| >= CikWidth && AllDigits(cik.value)
  {
    if tickers.Unavailable? {
      return None;
    }
    var entries := tickers.body;
    var key := Upper(ticker);
    var i := 0;
    while i < |entries|
      invariant 0 <= i <= |entries|
      invariant CikFor(entries, key) == CikFor(entries[i..], key)
    {
      assert entries[i..][1..] == entries[i + 1..];
      var entry := entries[i];
      if entry.ticker.None? {
        return None;
      }
      if entry.ticker.value == key {
        if entry.cikStr.None? {
          return None;
        }
        return Some(PaddedCik(entry.cikStr.value));
      }
      i := i + 1;
    }
    return None;
  }

  // ---------------------------------------------------------------------
  // get_recent_filings

  /** `filings[name][i]`, or `None` where Python raises KeyError or IndexError. */
  function Column(recent: Recent, name: string, i: nat): Option<string> {
    if name in recent && i < |recent[name]| then Some(recent[name][i]) else None
  }

  /** `filing_type` admits `form`: the empty filter admits every form. */
  predicate Admits(filingType: string, form: string)
  {
    filingType == "" || form == filingType
  }

  /** The document URL: the CIK as an integer, the accession number without dashes. */
  function ArchiveUrl(cik: string, accession: string, document: string): string
    requires AllDigits(cik)
  {
    ArchivesBase + Decimal(ParseDecimal(cik)) + "/" + RemoveDashes(accession) + "/" + document
  }

  /** The URL segment `int(cik)` of a padded CIK is the unpadded number. */
  lemma ArchiveUrlUsesUnpaddedCik(n: nat, accession: string, document: string)
    ensures AllDigits(PaddedCik(n))
    ensures ArchiveUrl(PaddedCik(n), accession, document) ==
            ArchivesBase + Decimal(n) + "/" + RemoveDashes(accession) + "/" + document
  {
    PaddedCikDigits(n);
  }

  /** The record for row `i`, whose form has been read as `form`. */
  function Row(recent: Recent, i: nat, ticker: string, cik: string, form: string): (r: Option<Filing>)
    requires AllDigits(cik)
    ensures r.Some? ==> r.value.form == form && r.value.ticker == ticker && r.value.cik == cik
  {
    match (Column(recent, AccessionColumn, i), Column(recent, DocumentColumn, i),
           Column(recent, FilingDateColumn, i), Column(recent, ReportDateColumn, i))
    case (Some(accession), Some(document), Some(filed), Some(reported)) =>
      Some(Filing(ticker, cik, form, accession, filed, reported, ArchiveUrl(cik, accession, document)))
    case _ => None
  }

  /**
   * The records of rows `i..count` that the filter admits, at most `room`
   * of them; `None` when a column read on the way fails.
   */
  function Scan(recent: Recent, count: nat, ticker: string, cik: string, filingType: string,
                i: nat, room: nat): (r: Option<seq<Filing>>)
    requires AllDigits(cik) && room > 0
    ensures r.Some? ==> |r.value| <= room
    ensures r.Some? ==> forall f <- r.value :: Admits(filingType, f.form) && f.ticker == ticker && f.cik == cik
    decreases count - i
  {
    if i >= count then Some([])
    else match Column(recent, FormColumn, i)
      case None => None
      case Some(form) =>
        if !Admits(filingType, form) then Scan(recent, count, ticker, cik, filingType, i + 1, room)
        else match Row(recent, i, ticker, cik, form)
          case None => None
          case Some(f) =>
            if room == 1 then Some([f])
            else match Scan(recent, count, ticker, cik, filingType, i + 1, room - 1)
              case None => None
              case Some(rest) => Some([f] + rest)
  }

  /** `get_recent_filings(ticker, filing_type)` against the EDGAR snapshot `edgar`. */
  function RecentFilings(edgar: Edgar, ticker: string, filingType: string): (r: seq<Filing>)
    ensures |r| <= MaxFilings
    ensures forall f <- r :: Admits(filingType, f.form) && f.ticker == ticker &&
                             Cik(edgar.tickers, ticker) == Some(f.cik)
  {
    match Cik(edgar.tickers, ticker)
    case None => []
    case Some(cik) =>
      if cik !in edgar.submissions then []
      else
        var recent := edgar.submissions[cik].recent;
        if recent == map[] || AccessionColumn !in recent then []
        else
          match Scan(recent, |recent[AccessionColumn]|, ticker, cik, filingType, 0, MaxFilings)
          case None => []
          case Some(fs) => fs
  }

  /** `xs` in front of a successful scan's records. */
  function Prepend(xs: seq<Filing>, r: Option<seq<Filing>>): Option<seq<Filing>> {
    match r
    case None => None
    case Some(ys) => Some(xs + ys)
  }

  /**
   * get_recent_filings: resolves the CIK, reads the submissions document
   * and turns its columns into records, skipping rows the filter rejects
   * and stopping after ten records. Any failure gives `[]`.
   */
  method GetRecentFilings(edgar: Edgar, ticker: string, filingType: string) returns (results: seq<Filing>)
    ensures results == RecentFilings(edgar, ticker, filingType)
  {
    var cik := GetCik(edgar.tickers, ticker);
    if cik.None? {
      return [];
    }
    if cik.value !in edgar.submissions {
      return [];
    }
    var recent := edgar.submissions[cik.value].recent;
    if recent == map[] {
      return [];
    }
    if AccessionColumn !in recent {
      return [];
    }
    var count := |recent[AccessionColumn]|;
    ghost var whole := Scan(recent, count, ticker, cik.value, filingType, 0, MaxFilings);
    results := [];
    assert whole.Some? ==> results + whole.value == whole.value;
    var i := 0;
    while i < count
      invariant 0 <= i <= count
      invariant |results| < MaxFilings
      invariant whole == Prepend(results, Scan(recent, count, ticker, cik.value, filingType, i, MaxFilings - |results|))
    {
      var form := Column(recent, FormColumn, i);
      if form.None? {
        return [];
      }
      if filingType != "" && form.value != filingType {
        i := i + 1;
        continue;
      }
      var row := Row(recent, i, ticker, cik.value, form.value);
      if row.None? {
        return [];
      }
      ScanAdmittedRow(results, recent, count, ticker, cik.value, filingType, i, MaxFilings - |results|, form.value, row.value);
      results := results + [row.value];
      if |results| >= MaxFilings {
        return;
      }
      i := i + 1;
    }
    assert results + [] == results;
  }

  /** The scan's step over an admitted, complete row, seen from the records already collected. */
  lemma ScanAdmittedRow(results: seq<Filing>, recent: Recent, count: nat, ticker: string, cik: string,
                        filingType: string, i: nat, room: nat, form: string, f: Filing)
    requires AllDigits(cik) && i < count && room > 0
    requires Column(recent, FormColumn, i) == Some(form) && Admits(filingType, form)
    requires Row(recent, i, ticker, cik, form) == Some(f)
    ensures Prepend(results, Scan(recent, count, ticker, cik, filingType, i, room)) ==
            if room == 1 then Some(results + [f])
            else Prepend(results + [f], Scan(recent, count, ticker, cik, filingType, i + 1, room - 1))
  {
    if room > 1 {
      var tail := Scan(recent, count, ticker, cik, filingType, i + 1, room - 1);
      if tail.Some? {
        assert results + ([f] + tail.value) == results + [f] + tail.value;
      }
    }
  }

  // Properties of the listing ------------------------------------------

  /** Column `name` exists and holds at least `count` entries. */
  predicate HasRows(recent: Recent, name: string, count: nat) {
    name in recent && |recent[name]| >= count
  }

  /** Every column the records are built from holds at least `count` entries. */
  predicate WellFormed(recent: Recent, count: nat) {
    HasRows(recent, AccessionColumn, count) && HasRows(recent, FormColumn, count) &&
    HasRows(recent, DocumentColumn, count) && HasRows(recent, FilingDateColumn, count) &&
    HasRows(recent, ReportDateColumn, count)
  }

  /** Row `i` as a record, for a well-formed document. */
  function RecordAt(recent: Recent, count: nat, ticker: string, cik: string, i: nat): Filing
    requires AllDigits(cik) && WellFormed(recent, count) && i < count
  {
    Filing(ticker, cik, recent[FormColumn][i], recent[AccessionColumn][i],
           recent[FilingDateColumn][i], recent[ReportDateColumn][i],
           ArchiveUrl(cik, recent[AccessionColumn][i], recent[DocumentColumn][i]))
  }

  /** Rows `i..count` as records, in source order. */
  function Records(recent: Recent, count: nat, ticker: string, cik: string, i: nat): seq<Filing>
    requires AllDigits(cik) && WellFormed(recent, count) && i <= count
    decreases count - i
  {
    if i == count then [] else [RecordAt(recent, count, ticker, cik, i)] + Records(recent, count, ticker, cik, i + 1)
  }

  /** The records whose form the filter admits, in order. */
  function OfForm(fs: seq<Filing>, filingType: string): seq<Filing> {
    if fs == [] then []
    else if Admits(filingType, fs[0].form) then [fs[0]] + OfForm(fs[1..], filingType)
    else OfForm(fs[1..], filingType)
  }

  /** The first `n` elements of `fs`, or all of them. */
  function Take(fs: seq<Filing>, n: nat): seq<Filing> {
    if |fs| <= n then fs else fs[..n]
  }

  lemma TakeCons(f: Filing, fs: seq<Filing>, n: nat)
    requires n > 0
    ensures Take([f] + fs, n) == [f] + Take(fs, n - 1)
  {
    if |fs| > n - 1 {
      assert ([f] + fs)[..n] == [f] + fs[..n - 1];
    }
  }

  lemma OfFormCons(f: Filing, fs: seq<Filing>, filingType: string)
    ensures OfForm([f] + fs, filingType) ==
            if Admits(filingType, f.form) then [f] + OfForm(fs, filingType) else OfForm(fs, filingType)
  {
    assert ([f] + fs)[1..] == fs;
  }

  /** One step of the scan over a complete row. */
  lemma ScanCompleteRow(recent: Recent, count: nat, ticker: string, cik: string,
                        filingType: string, i: nat, room: nat)
    requires AllDigits(cik) && WellFormed(recent, count) && i < count && room > 0
    ensures Scan(recent, count, ticker, cik, filingType, i, room) ==
            var f := RecordAt(recent, count, ticker, cik, i);
            if !Admits(filingType, f.form) then Scan(recent, count, ticker, cik, filingType, i + 1, room)
            else if room == 1 then Some([f])
            else Prepend([f], Scan(recent, count, ticker, cik, filingType, i + 1, room - 1))
  {
    var f := RecordAt(recent, count, ticker, cik, i);
    assert Column(recent, FormColumn, i) == Some(f.form);
    assert Row(recent, i, ticker, cik, f.form) == Some(f);
  }

  /**
   * On a well-formed document the scan is the first `room` admitted rows,
   * in source order.
   */
  lemma {:induction false} ScanTakesFirstAdmitted(recent: Recent, count: nat, ticker: string, cik: string,
                                                  filingType: string, i: nat, room: nat)
    requires AllDigits(cik) && WellFormed(recent, count) && i <= count && room > 0
    ensures Scan(recent, count, ticker, cik, filingType, i, room) ==
            Some(Take(OfForm(Records(recent, count, ticker, cik, i), filingType), room))
    decreases count - i
  {
    if i < count {
      var f := RecordAt(recent, count, ticker, cik, i);
      var rest := Records(recent, count, ticker, cik, i + 1);
      assert Records(recent, count, ticker, cik, i) == [f] + rest;
      ScanCompleteRow(recent, count, ticker, cik, filingType, i, room);
      OfFormCons(f, rest, filingType);
      if !Admits(filingType, f.form) {
        ScanTakesFirstAdmitted(recent, count, ticker, cik, filingType, i + 1, room);
      } else {
        TakeCons(f, OfForm(rest, filingType), room);
        if room == 1 {
          assert Take(OfForm(rest, filingType), 0) == [];
          assert [f] + Take(OfForm(rest, filingType), 0) == [f];
        } else {
          ScanTakesFirstAdmitted(recent, count, ticker, cik, filingType, i + 1, room - 1);
        }
      }
    }
  }

  /**
   * When the lookup succeeds and every column is long enough, the listing
   * is exactly the first ten admitted rows, in the order of the columns.
   */
  lemma RecentFilingsAreFirstAdmitted(edgar: Edgar, ticker: string, filingType: string, cik: string)
    requires Cik(edgar.tickers, ticker) == Some(cik) && cik in edgar.submissions
    requires AccessionColumn in edgar.submissions[cik].recent
    requires WellFormed(edgar.submissions[cik].recent, |edgar.submissions[cik].recent[AccessionColumn]|)
    ensures AllDigits(cik)
    ensures RecentFilings(edgar, ticker, filingType) ==
            Take(OfForm(Records(edgar.submissions[cik].recent, |edgar.submissions[cik].recent[AccessionColumn]|,
                                ticker, cik, 0), filingType), MaxFilings)
  {
    var recent := edgar.submissions[cik].recent;
    ScanTakesFirstAdmitted(recent, |recent[AccessionColumn]|, ticker, cik, filingType, 0, MaxFilings);
  }

  /** Row `j` lacks a column the record needs. */
  predicate Incomplete(recent: Recent, j: nat) {
    Column(recent, FormColumn, j).None? || Column(recent, AccessionColumn, j).None? ||
    Column(recent, DocumentColumn, j).None? || Column(recent, FilingDateColumn, j).None? ||
    Column(recent, ReportDateColumn, j).None?
  }

  /** Without a filter, an incomplete row reached before the limit voids the whole scan. */
  lemma {:induction false} IncompleteRowVoidsScan(recent: Recent, count: nat, ticker: string, cik: string,
                                                  i: nat, room: nat, j: nat)
    requires AllDigits(cik) && room > 0
    requires i <= j < count && j - i < room && Incomplete(recent, j)
    ensures Scan(recent, count, ticker, cik, "", i, room) == None
    decreases j - i
  {
    if i < j && !Incomplete(recent, i) {
      IncompleteRowVoidsScan(recent, count, ticker, cik, i + 1, room - 1, j);
    }
  }

  /**
   * Without a filter, a column shorter than the listing within the first ten
   * rows makes get_recent_filings return `[]`, never a partial list.
   */
  lemma ShortColumnGivesNoFilings(edgar: Edgar, ticker: string, cik: string, j: nat)
    requires Cik(edgar.tickers, ticker) == Some(cik) && cik in edgar.submissions
    requires AccessionColumn in edgar.submissions[cik].recent
    requires j < |edgar.submissions[cik].recent[AccessionColumn]| && j < MaxFilings
    requires Incomplete(edgar.submissions[cik].recent, j)
    ensures RecentFilings(edgar, ticker, "") == []
  {
    IncompleteRowVoidsScan(edgar.submissions[cik].recent, |edgar.submissions[cik].recent[AccessionColumn]|,
                           ticker, cik, 0, MaxFilings, j);
  }

  /** An unresolved ticker, a failed request or an empty `recent` give `[]`. */
  lemma NothingToListGivesNoFilings(edgar: Edgar, ticker: string, filingType: string)
    requires Cik(edgar.tickers, ticker).None? ||
             Cik(edgar.tickers, ticker).value !in edgar.submissions ||
             edgar.submissions[Cik(edgar.tickers, ticker).value].recent == map[]
    ensures RecentFilings(edgar, ticker, filingType) == []
  {
  }

  // ---------------------------------------------------------------------
  // get_filing_text

  /**
   * get_filing_text given the text extracted from the fetched page: the
   * first 100,000 characters, or `""` when the fetch or extraction failed.
   */
  function FilingText(page: Fetch<string>): (r: string)
    ensures |r| <= MaxTextChars
    ensures page.Unavailable? ==> r == ""
    ensures page.Fetched? ==> r <= page.body
    ensures page.Fetched? ==> |r| == if |page.body| < MaxTextChars then |page.body| else MaxTextChars
  {
    match page
    case Unavailable => ""
    case Fetched(text) => if |text| <= MaxTextChars then text else text[..MaxTextChars]
  }
}
