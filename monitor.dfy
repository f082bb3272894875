/**
 * The filing change monitor of backend/monitor.py: a set of tracked tickers
 * and, per ticker, the accession number of the newest filing seen so far.
 * A polling tick reports a ticker whose newest filing differs from that
 * baseline, then moves the baseline to the newest filing.
 */
module Monitor {
  import opened Wrappers
  import opened Scraper

  /**
   * What one call of get_recent_filings(ticker) did: returned a list, or
   * raised an exception.
   */
  datatype QueryResult = Raised | Returned(filings: seq<Filing>)

  /** The newest filing of a query, `filings[0]`, when the list is non-empty. */
  function Newest(q: QueryResult): Option<Filing> {
    if q.Returned? && q.filings != [] then Some(q.filings[0]) else None
  }

  /** `latest_accessions.get(ticker)` is truthy: present and not the empty string. */
  predicate HasBaseline(latest: map<string, string>, t: string) {
    t in latest && latest[t] != ""
  }

  /** A tick that sees `q` for `t` reports a new filing. */
  predicate IsChange(latest: map<string, string>, t: string, q: QueryResult) {
    HasBaseline(latest, t) && Newest(q).Some? && Newest(q).value.accessionNumber != latest[t]
  }

  /** The baselines after the seeding step of add_ticker_to_monitor saw `q` for `t`. */
  function Seed(latest: map<string, string>, t: string, q: QueryResult): (m: map<string, string>)
    ensures m.Keys == if Newest(q).Some? then latest.Keys + {t} else latest.Keys
    ensures forall u :: u in latest && u != t ==> m[u] == latest[u]
  {
    match Newest(q)
    case None => latest
    case Some(f) => latest[t := f.accessionNumber]
  }

  /** The baselines after a tick has processed every ticker of `done`. */
  function AfterTick(latest: map<string, string>, done: set<string>, query: string -> QueryResult)
    : (m: map<string, string>)
    ensures latest.Keys <= m.Keys <= latest.Keys + done
  {
    map t | t in latest.Keys + done && (t in latest || (t in done && Newest(query(t)).Some?)) ::
      if t in done && Newest(query(t)).Some? then Newest(query(t)).value.accessionNumber else latest[t]
  }

  /** The (ticker, filing) pairs a tick over `done` reports. */
  function Changes(latest: map<string, string>, done: set<string>, query: string -> QueryResult)
    : set<(string, Filing)>
  {
    set t | t in done && IsChange(latest, t, query(t)) :: (t, Newest(query(t)).value)
  }

  /** No ticker appears twice in a report. */
  predicate OncePerTicker(reported: seq<(string, Filing)>) {
    forall i, j :: 0 <= i < j < |reported| ==> reported[i].0 != reported[j].0
  }

  /**
   * The module-level stores `tracked_tickers` and `latest_accessions`.
   */
  class FilingMonitor {
    var trackedTickers: set<string>
    var latestAccessions: map<string, string>

    /** A baseline is only ever stored for a tracked ticker. */
    ghost predicate Valid()
      reads this
    {
      latestAccessions.Keys <= trackedTickers
    }

    constructor ()
      ensures Valid()
      ensures trackedTickers == {} && latestAccessions == map[]
    {
      trackedTickers := {};
      latestAccessions := map[];
    }

    /**
     * add_ticker_to_monitor: tracks `ticker` whatever happens, and takes the
     * newest filing of the baseline query `q` as its baseline when there is one.
     */
    method AddTicker(ticker: string, q: QueryResult)
      requires Valid()
      modifies this
      ensures Valid()
      ensures trackedTickers == old(trackedTickers) + {ticker}
      ensures q.Returned? && q.filings != [] ==>
                latestAccessions == old(latestAccessions)[ticker := q.filings[0].accessionNumber]
      ensures q.Raised? || q.filings == [] ==> latestAccessions == old(latestAccessions)
      ensures latestAccessions == Seed(old(latestAccessions), ticker, q)
    {
      trackedTickers := trackedTickers + {ticker};
      match q {
        case Raised =>
        case Returned(filings) =>
          if filings != [] {
            latestAccessions := latestAccessions[ticker := filings[0].accessionNumber];
          }
      }
    }

    /**
     * check_updates: one polling tick. `query(t)` is what get_recent_filings(t)
     * does during this tick; the result lists the new filings the tick logs,
     * in the order the tickers were visited.
     */
    method CheckUpdates(query: string -> QueryResult) returns (reported: seq<(string, Filing)>)
      requires Valid()
      modifies this
      ensures Valid()
      ensures trackedTickers == old(trackedTickers)
      ensures latestAccessions == AfterTick(old(latestAccessions), trackedTickers, query)
      ensures (set p | p in reported) == Changes(old(latestAccessions), trackedTickers, query)
      ensures OncePerTicker(reported)
    {
      var remaining := trackedTickers;
      reported := [];
      while remaining != {}
        invariant remaining <= trackedTickers
        invariant trackedTickers == old(trackedTickers)
        invariant latestAccessions == AfterTick(old(latestAccessions), trackedTickers - remaining, query)
        invariant (set p | p in reported) == Changes(old(latestAccessions), trackedTickers - remaining, query)
        invariant forall p <- reported :: p.0 in trackedTickers - remaining
        invariant OncePerTicker(reported)
        decreases remaining
      {
        var ticker :| ticker in remaining;
        ghost var done := trackedTickers - remaining;
        remaining := remaining - {ticker};
        assert trackedTickers - remaining == done + {ticker};
        var q := query(ticker);
        if q.Raised? || q.filings == [] {
          TickStepUnchanged(old(latestAccessions), done, ticker, query);
          continue;
        }
        var mostRecent := q.filings[0];
        AfterTickOutside(old(latestAccessions), done, ticker, query);
        var lastKnown := if ticker in latestAccessions then Some(latestAccessions[ticker]) else None;
        ghost var before := reported;
        if lastKnown.Some? && lastKnown.value != "" && mostRecent.accessionNumber != lastKnown.value {
          reported := reported + [(ticker, mostRecent)];
          ElementsOfAppend(before, (ticker, mostRecent));
        }
        latestAccessions := latestAccessions[ticker := mostRecent.accessionNumber];
        TickStepAdvances(old(latestAccessions), done, ticker, query);
      }
    }
  }

  lemma ElementsOfAppend(ps: seq<(string, Filing)>, p: (string, Filing))
    ensures (set x | x in ps + [p]) == (set x | x in ps) + {p}
  {
  }

  /** A tick leaves the baseline of a ticker it has not processed yet as it was. */
  lemma AfterTickOutside(latest: map<string, string>, done: set<string>, t: string,
                         query: string -> QueryResult)
    requires t !in done
    ensures t in AfterTick(latest, done, query) <==> t in latest
    ensures t in latest ==> AfterTick(latest, done, query)[t] == latest[t]
  {
  }

  /** Processing a ticker whose query failed or found nothing changes nothing. */
  lemma TickStepUnchanged(latest: map<string, string>, done: set<string>, t: string,
                          query: string -> QueryResult)
    requires t !in done && Newest(query(t)).None?
    ensures AfterTick(latest, done + {t}, query) == AfterTick(latest, done, query)
    ensures Changes(latest, done + {t}, query) == Changes(latest, done, query)
  {
  }

  /** Processing a ticker whose query found filings stores its newest accession number. */
  lemma TickStepAdvances(latest: map<string, string>, done: set<string>, t: string,
                         query: string -> QueryResult)
    requires t !in done && Newest(query(t)).Some?
    ensures AfterTick(latest, done + {t}, query) ==
            AfterTick(latest, done, query)[t := Newest(query(t)).value.accessionNumber]
    ensures Changes(latest, done + {t}, query) ==
            Changes(latest, done, query) + if IsChange(latest, t, query(t)) then {(t, Newest(query(t)).value)} else {}
  {
  }

  // Properties of a tick -------------------------------------------------

  /**
   * A tick reports `(t, f)` exactly when `t` is tracked, has a (non-empty)
   * baseline, and its query's newest filing `f` carries another accession
   * number. So a first observation is never reported, and each ticker is
   * reported with one filing at most.
   */
  lemma ChangeIffNewAccession(latest: map<string, string>, tracked: set<string>,
                              query: string -> QueryResult, t: string, f: Filing)
    ensures (t, f) in Changes(latest, tracked, query) <==>
            t in tracked && HasBaseline(latest, t) &&
            query(t).Returned? && query(t).filings != [] && f == query(t).filings[0] &&
            f.accessionNumber != latest[t]
  {
    if (t, f) in Changes(latest, tracked, query) {
      var u :| u in tracked && IsChange(latest, u, query(u)) && (t, f) == (u, Newest(query(u)).value);
      assert u == t;
    }
  }

  /** A ticker whose query returned filings has its newest accession number stored, change or not. */
  lemma TickStoresNewest(latest: map<string, string>, tracked: set<string>,
                         query: string -> QueryResult, t: string)
    requires t in tracked && query(t).Returned? && query(t).filings != []
    ensures t in AfterTick(latest, tracked, query)
    ensures AfterTick(latest, tracked, query)[t] == query(t).filings[0].accessionNumber
  {
  }

  /**
   * A ticker whose query raised or returned nothing, and a ticker that is
   * not tracked, keeps its baseline (or its lack of one).
   */
  lemma TickKeepsBaseline(latest: map<string, string>, tracked: set<string>,
                          query: string -> QueryResult, t: string)
    requires t !in tracked || query(t).Raised? || query(t).filings == []
    ensures t in AfterTick(latest, tracked, query) <==> t in latest
    ensures t in latest ==> AfterTick(latest, tracked, query)[t] == latest[t]
  {
  }

  /**
   * What a tick does for `t` depends on `t`'s own query only: a failure for
   * another ticker does not disturb it.
   */
  lemma TickIsolatesTickers(latest: map<string, string>, tracked: set<string>,
                            q1: string -> QueryResult, q2: string -> QueryResult, t: string, f: Filing)
    requires q1(t) == q2(t)
    ensures t in AfterTick(latest, tracked, q1) <==> t in AfterTick(latest, tracked, q2)
    ensures t in AfterTick(latest, tracked, q1) ==> AfterTick(latest, tracked, q1)[t] == AfterTick(latest, tracked, q2)[t]
    ensures (t, f) in Changes(latest, tracked, q1) <==> (t, f) in Changes(latest, tracked, q2)
  {
    ChangeIffNewAccession(latest, tracked, q1, t, f);
    ChangeIffNewAccession(latest, tracked, q2, t, f);
  }

  /**
   * A tick whose newest filing for `t` has the accession number the tick
   * before stored for `t` reports nothing for `t`.
   */
  lemma RepeatedAnswerIsQuiet(latest: map<string, string>, tracked: set<string>,
                              q1: string -> QueryResult, q2: string -> QueryResult, t: string, f: Filing)
    requires Newest(q2(t)).Some? ==>
               Newest(q1(t)).Some? && Newest(q1(t)).value.accessionNumber == Newest(q2(t)).value.accessionNumber
    ensures (t, f) !in Changes(AfterTick(latest, tracked, q1), tracked, q2)
  {
    var next := AfterTick(latest, tracked, q1);
    ChangeIffNewAccession(next, tracked, q2, t, f);
    if t in tracked && q1(t).Returned? && q1(t).filings != [] {
      TickStoresNewest(latest, tracked, q1, t);
    } else if t in tracked && HasBaseline(next, t) {
      assert Newest(q2(t)).None?;
    }
  }

  /**
   * Seeding takes the newest filing as baseline, so a tick that sees the
   * same answer right after add_ticker_to_monitor reports nothing for the
   * ticker. This holds for a ticker that was already tracked too: adding
   * it again moves its baseline, and a filing that arrived since the last
   * tick is then never reported.
   */
  lemma SeedSuppressesFirstTick(latest: map<string, string>, tracked: set<string>, t: string,
                                q: QueryResult, query: string -> QueryResult, f: Filing)
    requires query(t) == q
    ensures (t, f) !in Changes(Seed(latest, t, q), tracked + {t}, query)
  {
    ChangeIffNewAccession(Seed(latest, t, q), tracked + {t}, query, t, f);
  }

  /**
   * A ticker with baseline `x` whose query now shows a newest filing `g`
   * with another accession number is reported once, with `g`; its baseline
   * becomes `g`'s accession number, and a further tick with the same answer
   * is quiet.
   */
  lemma ChangeReportedOnceThenQuiet(latest: map<string, string>, tracked: set<string>,
                                    query: string -> QueryResult, t: string, g: Filing, f: Filing)
    requires t in tracked && HasBaseline(latest, t)
    requires query(t).Returned? && query(t).filings != [] && query(t).filings[0] == g
    requires g.accessionNumber != latest[t]
    ensures (t, g) in Changes(latest, tracked, query)
    ensures (t, f) in Changes(latest, tracked, query) ==> f == g
    ensures t in AfterTick(latest, tracked, query) && AfterTick(latest, tracked, query)[t] == g.accessionNumber
    ensures (t, f) !in Changes(AfterTick(latest, tracked, query), tracked, query)
  {
    ChangeIffNewAccession(latest, tracked, query, t, g);
    ChangeIffNewAccession(latest, tracked, query, t, f);
    TickStoresNewest(latest, tracked, query, t);
    RepeatedAnswerIsQuiet(latest, tracked, query, query, t, f);
  }

  /** The query check_updates makes: get_recent_filings(t) with no form filter, which never raises. */
  function LiveQuery(edgar: Edgar): (query: string -> QueryResult)
    ensures forall t :: query(t).Returned? && |query(t).filings| <= MaxFilings
  {
    t => Returned(RecentFilings(edgar, t, ""))
  }

  /**
   * With the live query, a reported filing is the first record the listing
   * gives for that ticker: its ticker field is the tracked ticker and its
   * CIK is the one the ticker table gives.
   */
  lemma LiveChangeIsNewestListed(latest: map<string, string>, tracked: set<string>, edgar: Edgar,
                                 t: string, f: Filing)
    requires (t, f) in Changes(latest, tracked, LiveQuery(edgar))
    ensures RecentFilings(edgar, t, "") != [] && f == RecentFilings(edgar, t, "")[0]
    ensures f.ticker == t && Cik(edgar.tickers, t) == Some(f.cik)
    ensures f.accessionNumber != latest[t]
  {
    ChangeIffNewAccession(latest, tracked, LiveQuery(edgar), t, f);
  }
}
