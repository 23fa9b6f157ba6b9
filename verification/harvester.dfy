/** The harvest loop: fetch a listing page, extract its rows, append them to
    the output file, flush it, move on to the next page; stop at the page
    limit, at the first page without rows, or at the first loop head after an
    interrupt. The network and the arrival of interrupts are parameters
    (`Env`); the output file is a `Sink` object and the module-global
    `keep_running` flag is a `Control` object. */
module Harvester {
  import opened Text
  import opened RowPattern

  const BaseUrl: string := "https://www.p2000-online.net/p2000.py"
  const PageQuery: string := "?aantal=50&pagina="

  /** The address of one listing page of 50 records. */
  function PageUrl(page: nat): string
  {
    BaseUrl + PageQuery + Decimal(page)
  }

  /** Reads the page number back out of an address. */
  function PageOfUrl(url: string): Option<nat>
  {
    var prefix := BaseUrl + PageQuery;
    if |prefix| < |url| && url[..|prefix|] == prefix && AllDigits(url[|prefix|..]) then
      Some(ParseDecimal(url[|prefix|..]))
    else
      None
  }

  lemma PageUrlRoundTrip(page: nat)
    ensures PageOfUrl(PageUrl(page)) == Some(page)
  {
    var prefix := BaseUrl + PageQuery;
    assert PageUrl(page)[..|prefix|] == prefix;
    assert PageUrl(page)[|prefix|..] == Decimal(page);
    ParseDecimalOfDecimal(page);
  }

  /** Different pages are requested at different addresses. */
  lemma PageUrlInjective(p: nat, q: nat)
    ensures PageUrl(p) == PageUrl(q) ==> p == q
  {
    PageUrlRoundTrip(p);
    PageUrlRoundTrip(q);
  }

  /** The outcome of one `urlopen(...).read().decode(...)`: any exception is
      `Failed`. */
  datatype FetchResult = Failed | Fetched(html: string)

  /** The world outside the loop: `net` answers each address, and
      `sigint(p)` says whether an interrupt is delivered while page `p - 1` is
      being handled, before the loop head at which the current page is `p`
      (`sigint(1)`: before the first loop head). The flag is read only at
      loop heads, so a delivery anywhere during that page has the same effect
      on the pages fetched; if that page was empty, the harvest ends there
      with the flag cleared. */
  datatype Env = Env(net: string -> FetchResult, sigint: nat -> bool)

  const Header: seq<string> := ["Timestamp", "Service", "Region", "Message"]

  function Fields(r: Row): seq<string>
  {
    [r.timestamp, r.service, r.region, r.message]
  }

  /** The lines the csv writer is handed for a batch of rows. */
  function DataLines(rows: seq<Row>): seq<seq<string>>
  {
    seq(|rows|, i requires 0 <= i < |rows| => Fields(rows[i]))
  }

  lemma DataLinesConcat(a: seq<Row>, b: seq<Row>)
    ensures DataLines(a + b) == DataLines(a) + DataLines(b)
  {
  }

  /** The rows a page contributes: none if its fetch failed. */
  function PageRows(env: Env, page: nat): seq<Row>
  {
    match env.net(PageUrl(page))
    case Failed => []
    case Fetched(html) => Extract(html)
  }

  /** The rows of the given pages, page after page, each in document order. */
  function RowsOf(env: Env, pages: seq<nat>): seq<Row>
  {
    if pages == [] then [] else PageRows(env, pages[0]) + RowsOf(env, pages[1..])
  }

  datatype StopReason = Interrupted | PageLimit | EmptyPage

  /** What a harvest did: the data rows written, the pages fetched in order,
      the value of the page counter at the end, and why it stopped. */
  datatype Outcome = Outcome(rows: seq<Row>, fetched: seq<nat>, finalPage: nat, stop: StopReason)

  /** The harvest from the loop head at which the page counter is `page` and
      the flag reads `keep`. Pages are fetched one by one upwards from `page`,
      none above `maxPage`; the counter ends one past the last fetched page,
      except after an empty page, where it is not advanced. */
  function Run(env: Env, maxPage: int, page: nat, keep: bool): (o: Outcome)
    ensures |o.fetched| <= if page <= maxPage then maxPage - page + 1 else 0
    ensures o.finalPage == page + |o.fetched| - (if o.stop == EmptyPage then 1 else 0)
    ensures !keep ==> o.fetched == [] && o.stop == Interrupted
    decreases if page <= maxPage then maxPage - page + 1 else 0
  {
    if !keep then Outcome([], [], page, Interrupted)
    else if page > maxPage then Outcome([], [], page, PageLimit)
    else
      match env.net(PageUrl(page))
      case Failed =>
        var o := Run(env, maxPage, page + 1, !env.sigint(page + 1));
        o.(fetched := [page] + o.fetched)
      case Fetched(html) =>
        var rows := Extract(html);
        if rows == [] then Outcome([], [page], page, EmptyPage)
        else
          var o := Run(env, maxPage, page + 1, !env.sigint(page + 1));
          o.(rows := rows + o.rows, fetched := [page] + o.fetched)
  }

  /** Pages are fetched in strictly increasing order, one after the other,
      starting at `page`. */
  lemma {:induction false} RunFetchesInOrder(env: Env, maxPage: int, page: nat, keep: bool)
    ensures forall i :: 0 <= i < |Run(env, maxPage, page, keep).fetched| ==> Run(env, maxPage, page, keep).fetched[i] == page + i
    decreases if page <= maxPage then maxPage - page + 1 else 0
  {
    if keep && page <= maxPage && !(env.net(PageUrl(page)).Fetched? && Extract(env.net(PageUrl(page)).html) == []) {
      var next := Run(env, maxPage, page + 1, !env.sigint(page + 1));
      RunFetchesInOrder(env, maxPage, page + 1, !env.sigint(page + 1));
      var pages := Run(env, maxPage, page, keep).fetched;
      assert pages == [page] + next.fetched;
      forall i | 0 <= i < |pages| ensures pages[i] == page + i {
        if i > 0 {
          assert pages[i] == next.fetched[i - 1];
        }
      }
    }
  }

  /** One step of the loop, as `Run` describes it: a failed page. */
  lemma RunFailedStep(env: Env, maxPage: int, page: nat)
    requires page <= maxPage && env.net(PageUrl(page)).Failed?
    ensures var o, next := Run(env, maxPage, page, true), Run(env, maxPage, page + 1, !env.sigint(page + 1));
      o.rows == next.rows && o.fetched == [page] + next.fetched && o.stop == next.stop
      && o.finalPage == next.finalPage
  {
  }

  /** One step of the loop: a page with rows. */
  lemma RunRowsStep(env: Env, maxPage: int, page: nat)
    requires page <= maxPage && env.net(PageUrl(page)).Fetched? && Extract(env.net(PageUrl(page)).html) != []
    ensures var o, next := Run(env, maxPage, page, true), Run(env, maxPage, page + 1, !env.sigint(page + 1));
      o.rows == Extract(env.net(PageUrl(page)).html) + next.rows && o.fetched == [page] + next.fetched
      && o.stop == next.stop && o.finalPage == next.finalPage
  {
  }

  /** One step of the loop: a page without rows ends the harvest. */
  lemma RunEmptyStep(env: Env, maxPage: int, page: nat)
    requires page <= maxPage && env.net(PageUrl(page)).Fetched? && Extract(env.net(PageUrl(page)).html) == []
    ensures var o := Run(env, maxPage, page, true);
      o.rows == [] && o.fetched == [page] && o.stop == EmptyPage && o.finalPage == page
  {
  }

  /** The rows written are exactly the rows of the fetched pages, page after
      page and in document order within a page; a failed page adds none. */
  lemma {:induction false} RunRowsArePageRows(env: Env, maxPage: int, page: nat, keep: bool)
    ensures Run(env, maxPage, page, keep).rows == RowsOf(env, Run(env, maxPage, page, keep).fetched)
    decreases if page <= maxPage then maxPage - page + 1 else 0
  {
    if keep && page <= maxPage {
      var response := env.net(PageUrl(page));
      if response.Fetched? && Extract(response.html) == [] {
        RunEmptyStep(env, maxPage, page);
        assert RowsOf(env, [page]) == PageRows(env, page) + RowsOf(env, []);
      } else {
        var next := Run(env, maxPage, page + 1, !env.sigint(page + 1));
        RunRowsArePageRows(env, maxPage, page + 1, !env.sigint(page + 1));
        if response.Failed? {
          RunFailedStep(env, maxPage, page);
        } else {
          RunRowsStep(env, maxPage, page);
        }
        var fetched := Run(env, maxPage, page, true).fetched;
        assert fetched[0] == page && fetched[1..] == next.fetched;
      }
    }
  }

  /** Each of the three exits happens only for its reason: an empty page
      is the last page fetched, and the counter stays on it; the page limit
      leaves the counter above `maxPage`; an interrupt stops the run either
      before any fetch or right after the page before the counter's page. */
  lemma {:induction false} RunStopsOnlyAsStated(env: Env, maxPage: int, page: nat, keep: bool)
    ensures var o := Run(env, maxPage, page, keep);
      && (o.stop == EmptyPage ==>
            o.fetched != [] && o.finalPage == o.fetched[|o.fetched| - 1]
            && env.net(PageUrl(o.finalPage)).Fetched? && Extract(env.net(PageUrl(o.finalPage)).html) == [])
      && (o.stop == PageLimit ==> o.finalPage > maxPage)
      && (o.stop == Interrupted ==> (!keep && o.fetched == []) || (o.fetched != [] && env.sigint(o.finalPage)))
    decreases if page <= maxPage then maxPage - page + 1 else 0
  {
    if keep && page <= maxPage {
      var response := env.net(PageUrl(page));
      if response.Fetched? && Extract(response.html) == [] {
        RunEmptyStep(env, maxPage, page);
      } else {
        var next := Run(env, maxPage, page + 1, !env.sigint(page + 1));
        RunStopsOnlyAsStated(env, maxPage, page + 1, !env.sigint(page + 1));
        if response.Failed? {
          RunFailedStep(env, maxPage, page);
        } else {
          RunRowsStep(env, maxPage, page);
        }
        if next.fetched == [] {
          assert next.stop == Interrupted ==> env.sigint(page + 1);
        }
      }
    }
  }

  /** Every page fetched before the last one either failed or had rows: the
      harvest goes on past a page only in those two cases. */
  lemma {:induction false} RunContinuesOnlyPastRows(env: Env, maxPage: int, page: nat, keep: bool)
    ensures forall i :: 0 <= i < |Run(env, maxPage, page, keep).fetched| - 1 ==>
      var p := Run(env, maxPage, page, keep).fetched[i];
      PageRows(env, p) != [] || env.net(PageUrl(p)).Failed?
    decreases if page <= maxPage then maxPage - page + 1 else 0
  {
    if keep && page <= maxPage && !(env.net(PageUrl(page)).Fetched? && Extract(env.net(PageUrl(page)).html) == []) {
      var next := Run(env, maxPage, page + 1, !env.sigint(page + 1));
      RunContinuesOnlyPastRows(env, maxPage, page + 1, !env.sigint(page + 1));
      var pages := Run(env, maxPage, page, keep).fetched;
      assert pages == [page] + next.fetched;
      forall i | 0 < i < |pages| - 1
        ensures PageRows(env, pages[i]) != [] || env.net(PageUrl(pages[i])).Failed?
      {
        assert pages[i] == next.fetched[i - 1];
      }
    }
  }

  /** Skip, not retry: a run of `n` failed pages adds no rows and moves the
      counter on by `n`; the harvest then carries on from the next page as if
      it had started there. */
  lemma {:induction false} FailedPagesAreSkipped(env: Env, maxPage: int, page: nat, n: nat)
    requires page + n <= maxPage + 1
    requires forall p :: page <= p < page + n ==> env.net(PageUrl(p)).Failed?
    requires forall p :: page < p <= page + n ==> !env.sigint(p)
    ensures var o, rest := Run(env, maxPage, page, true), Run(env, maxPage, page + n, true);
      o.rows == rest.rows && o.stop == rest.stop && o.finalPage == rest.finalPage
      && |o.fetched| == n + |rest.fetched| && o.fetched[n..] == rest.fetched
    decreases n
  {
    if n > 0 {
      assert env.net(PageUrl(page)).Failed?;
      FailedPagesAreSkipped(env, maxPage, page + 1, n - 1);
      var o := Run(env, maxPage, page, true);
      assert o.fetched[1..] == Run(env, maxPage, page + 1, true).fetched;
      assert o.fetched[n..] == o.fetched[1..][n - 1..];
    }
  }

  /** An interrupt delivered before the loop head of page `q` means that no
      page from `q` on is fetched; the page in progress was completed (its
      rows are among the rows written, by RunRowsArePageRows). */
  lemma {:induction false} InterruptStopsFetching(env: Env, maxPage: int, page: nat, keep: bool, q: nat)
    requires page < q && env.sigint(q)
    ensures forall i :: 0 <= i < |Run(env, maxPage, page, keep).fetched| ==> Run(env, maxPage, page, keep).fetched[i] < q
    decreases q - page
  {
    if keep && page <= maxPage && page + 1 < q {
      InterruptStopsFetching(env, maxPage, page + 1, !env.sigint(page + 1), q);
    }
  }

  /** No address is requested twice in one harvest. */
  lemma FetchedUrlsDistinct(env: Env, maxPage: int, keep: bool)
    ensures var pages := Run(env, maxPage, 1, keep).fetched;
      forall i, j :: 0 <= i < j < |pages| ==> PageUrl(pages[i]) != PageUrl(pages[j])
  {
    var pages := Run(env, maxPage, 1, keep).fetched;
    RunFetchesInOrder(env, maxPage, 1, keep);
    forall i, j | 0 <= i < j < |pages| ensures PageUrl(pages[i]) != PageUrl(pages[j]) {
      PageUrlInjective(pages[i], pages[j]);
    }
  }

  /** The module-global `keep_running` flag. */
  class Control {
    var keepRunning: bool

    /** The flag as the module is loaded. */
    constructor ()
      ensures keepRunning
    {
      keepRunning := true;
    }

    /** `signal_handler`: clears the flag and does nothing else. */
    method SignalHandler()
      modifies this
      ensures !keepRunning
    {
      keepRunning := false;
    }
  }

  /** The output file: the rows handed to the csv writer, and how many of
      them have been flushed out of the write buffer. */
  class Sink {
    var lines: seq<seq<string>>
    var flushed: nat
    var isOpen: bool

    ghost predicate Valid()
      reads this
    {
      flushed <= |lines|
    }

    /** `open(output_file, 'w')`: a new, empty file. */
    constructor Open()
      ensures Valid() && isOpen && lines == [] && flushed == 0
    {
      lines, flushed, isOpen := [], 0, true;
    }

    /** `writer.writerow(fields)`: buffered, not yet flushed. */
    method WriteRow(fields: seq<string>)
      requires Valid() && isOpen
      modifies this
      ensures Valid() && isOpen && lines == old(lines) + [fields] && flushed == old(flushed)
    {
      lines := lines + [fields];
    }

    /** `f.flush()` */
    method Flush()
      requires Valid() && isOpen
      modifies this
      ensures Valid() && isOpen && lines == old(lines) && flushed == |lines|
    {
      flushed := |lines|;
    }

    /** Leaving the `with` block closes the file, which flushes it. */
    method Close()
      requires Valid()
      modifies this
      ensures Valid() && !isOpen && lines == old(lines) && flushed == |lines|
    {
      flushed, isOpen := |lines|, false;
    }
  }

  /** The `for` loop over one page's matches: each row goes to the writer in
      match order and bumps the record count. Nothing is flushed here. */
  method WriteRows(sink: Sink, matches: seq<Row>, total: nat) returns (newTotal: nat)
    requires sink.Valid() && sink.isOpen
    modifies sink
    ensures sink.Valid() && sink.isOpen && sink.flushed == old(sink.flushed)
    ensures sink.lines == old(sink.lines) + DataLines(matches) && newTotal == total + |matches|
  {
    newTotal := total;
    for i := 0 to |matches|
      invariant sink.Valid() && sink.isOpen && sink.flushed == old(sink.flushed)
      invariant sink.lines == old(sink.lines) + DataLines(matches[..i]) && newTotal == total + i
    {
      sink.WriteRow(Fields(matches[i]));
      newTotal := newTotal + 1;
      DataLinesConcat(matches[..i], [matches[i]]);
      assert matches[..i + 1] == matches[..i] + [matches[i]];
    }
    assert matches[..|matches|] == matches;
  }

  /** A page with rows: its rows are written and counted, then the file is
      flushed, so every data row written so far is out of the buffer. */
  method WritePage(sink: Sink, matches: seq<Row>, total: nat, ghost rows: seq<Row>) returns (newTotal: nat)
    requires sink.Valid() && sink.isOpen && sink.lines == [Header] + DataLines(rows) && total == |rows|
    modifies sink
    ensures sink.Valid() && sink.isOpen && sink.lines == [Header] + DataLines(rows + matches)
    ensures newTotal == |rows + matches| && sink.flushed == |sink.lines|
  {
    newTotal := WriteRows(sink, matches, total);
    DataLinesConcat(rows, matches);
    sink.Flush();
  }

  /** One pass of the loop body for the page `page`, entered with the flag
      set: fetch the page; on failure skip it; on a page without rows stop
      (`done`); otherwise write, count and flush its rows. An interrupt
      delivered meanwhile clears the flag, whether or not the loop goes on.
      In terms
      of `Run`: what has been written and fetched so far, followed by what
      the harvest goes on to write and fetch, stays the same. */
  method HarvestPage(maxPage: int, env: Env, control: Control, sink: Sink, page: nat, total: nat,
                     ghost rows: seq<Row>, ghost fetched: seq<nat>)
    returns (done: bool, newTotal: nat, ghost newRows: seq<Row>, ghost newFetched: seq<nat>)
    requires control.keepRunning && page <= maxPage
    requires sink.Valid() && sink.isOpen && sink.lines == [Header] + DataLines(rows) && total == |rows|
    requires sink.flushed == |sink.lines| || sink.lines == [Header]
    modifies sink, control
    ensures sink.Valid() && sink.isOpen && sink.lines == [Header] + DataLines(newRows) && newTotal == |newRows|
    ensures sink.flushed == |sink.lines| || sink.lines == [Header]
    ensures newFetched == fetched + [page]
    ensures var here := Run(env, maxPage, page, true);
      if done then
        control.keepRunning == !env.sigint(page + 1) && here.stop == EmptyPage && here.finalPage == page
        && newRows == rows + here.rows && newFetched == fetched + here.fetched
      else
        var next := Run(env, maxPage, page + 1, control.keepRunning);
        control.keepRunning == !env.sigint(page + 1)
        && newRows + next.rows == rows + here.rows && newFetched + next.fetched == fetched + here.fetched
        && next.stop == here.stop && next.finalPage == here.finalPage
  {
    var response := env.net(PageUrl(page));
    done, newTotal, newRows, newFetched := false, total, rows, fetched + [page];
    if response.Failed? {
      RunFailedStep(env, maxPage, page);
    } else {
      var matches := Extract(response.html);
      if matches == [] {
        RunEmptyStep(env, maxPage, page);
        if env.sigint(page + 1) {
          control.SignalHandler();
        }
        return true, total, rows, newFetched;
      }
      RunRowsStep(env, maxPage, page);
      newTotal := WritePage(sink, matches, total, rows);
      newRows := rows + matches;
    }
    if env.sigint(page + 1) {
      control.SignalHandler();
    }
  }

  /** `harvest_p2000(max_page, output_file)`. The file holds the header and
      then exactly the rows `Run` describes; the count returned is their
      number; the pages fetched are those of `Run`. At every loop head no
      data row is held only in the write buffer (the header alone may be,
      until the first page with rows is flushed). The flag is never set back
      to true: it ends cleared exactly when an interrupt ended the harvest or
      arrived while the final, empty page was handled, and then a later
      harvest in the same process fetches nothing. */
  method Harvest(maxPage: int, env: Env, control: Control) returns (sink: Sink, totalRecords: nat, ghost fetched: seq<nat>)
    modifies control
    ensures fresh(sink) && sink.Valid() && !sink.isOpen && sink.flushed == |sink.lines|
    ensures var o := Run(env, maxPage, 1, old(control.keepRunning) && !env.sigint(1));
      sink.lines == [Header] + DataLines(o.rows) && totalRecords == |o.rows| && fetched == o.fetched
    ensures !old(control.keepRunning) ==> !control.keepRunning
    ensures var o := Run(env, maxPage, 1, old(control.keepRunning) && !env.sigint(1));
      !control.keepRunning <==> o.stop == Interrupted || (o.stop == EmptyPage && env.sigint(o.finalPage + 1))
  {
    sink := new Sink.Open();
    sink.WriteRow(Header);
    if env.sigint(1) {
      control.SignalHandler();
    }
    var currentPage: nat := 1;
    totalRecords := 0;
    ghost var rows: seq<Row> := [];
    fetched := [];
    ghost var outcome := Run(env, maxPage, 1, control.keepRunning);

    while control.keepRunning && currentPage <= maxPage
      invariant fresh(sink) && sink.Valid() && sink.isOpen
      invariant sink.lines == [Header] + DataLines(rows) && totalRecords == |rows|
      invariant sink.flushed == |sink.lines| || sink.lines == [Header]
      invariant !old(control.keepRunning) ==> !control.keepRunning
      invariant outcome.rows == rows + Run(env, maxPage, currentPage, control.keepRunning).rows
      invariant outcome.fetched == fetched + Run(env, maxPage, currentPage, control.keepRunning).fetched
      invariant outcome.stop == Run(env, maxPage, currentPage, control.keepRunning).stop
      invariant outcome.finalPage == Run(env, maxPage, currentPage, control.keepRunning).finalPage
      decreases if currentPage <= maxPage then maxPage - currentPage + 1 else 0
    {
      var done;
      done, totalRecords, rows, fetched := HarvestPage(maxPage, env, control, sink, currentPage, totalRecords, rows, fetched);
      if done {
        break;
      }
      currentPage := currentPage + 1;
    }
    sink.Close();
  }
}
