/**
 Incremental synchronisation with the NVD (src/ingest/nvd.rs, NvdSource::run): the time window of a run,
 the cursor committed with its data, and the paging loop.
 */
module Nvd {
  import opened Wrappers
  import opened Machine

  // ---------------------------------------------------------------- time windows

  /** Instants in nanoseconds; their texts keep milliseconds and cut off the rest. */
  type Instant = int

  const MILLISECOND: nat := 1_000_000
  const MINUTE: nat := 60_000 * MILLISECOND
  const DAY: nat := 1_440 * MINUTE
  const MAX_WINDOW: nat := 119 * DAY

  datatype Config = Config(overlapMinutes: nat, initialWindowDays: nat)

  function Floor(t: Instant): Instant { t - t % MILLISECOND }

  datatype Window = Window(from: Instant, to: Instant)

  function WindowStart(config: Config, cursor: Option<Instant>, now: Instant): Instant {
    var raw := if cursor.Some? then cursor.value - config.overlapMinutes * MINUTE else now - config.initialWindowDays * DAY;
    var start := if raw > now then now - DAY else raw;
    if now - start > MAX_WINDOW then now - MAX_WINDOW else start
  }

  /** The window a run asks the server for. */
  function WindowOf(config: Config, cursor: Option<Instant>, now: Instant): Window {
    Window(Floor(WindowStart(config, cursor, now)), Floor(now))
  }

  lemma FloorShift(t: Instant)
    ensures Floor(t - MAX_WINDOW) == Floor(t) - MAX_WINDOW
  {
    var k := MAX_WINDOW / MILLISECOND;
    assert MAX_WINDOW == k * MILLISECOND;
  }

  lemma FloorMonotone(a: Instant, b: Instant)
    requires a <= b
    ensures Floor(a) <= Floor(b)
  {
  }

  /** Whatever the cursor and the clock, the window is ordered and not longer than the server allows. */
  lemma WindowIsBounded(config: Config, cursor: Option<Instant>, now: Instant)
    ensures var w := WindowOf(config, cursor, now);
            w.from <= w.to <= w.from + MAX_WINDOW && MAX_WINDOW == 119 * 24 * 60 * 60 * 1_000_000_000
  {
    var start := WindowStart(config, cursor, now);
    assert config.initialWindowDays * DAY >= 0;
    FloorMonotone(start, now);
    FloorMonotone(now - MAX_WINDOW, start);
    FloorShift(now);
  }

  /** A first run reaches back the configured days; a later one reads the overlap before its cursor again. */
  lemma WindowReaches(config: Config, cursor: Option<Instant>, now: Instant, t: Instant)
    requires Floor(now - MAX_WINDOW) <= t <= Floor(now)
    requires cursor.Some? ==> cursor.value - config.overlapMinutes * MINUTE <= t
    requires cursor.Some? ==> cursor.value - config.overlapMinutes * MINUTE <= now
    requires cursor.None? ==> now - config.initialWindowDays * DAY <= t
    ensures var w := WindowOf(config, cursor, now); w.from <= t <= w.to
  {
    assert config.initialWindowDays * DAY >= 0;
  }

  /**
   How far a window reaches, in nanoseconds: it ends now and starts the overlap before the cursor or the initial
   days ago, but a day ago if that is ahead of the clock, and never more than 119 days ago; texts keep milliseconds.
   */
  lemma WindowExactly(config: Config, cursor: Option<Instant>, now: Instant)
    ensures var w := WindowOf(config, cursor, now);
            var day := 86_400_000_000_000;
            var reach := if cursor.Some? then now - cursor.value + config.overlapMinutes * 60_000_000_000 else config.initialWindowDays * day;
            var back := if reach < 0 then day else if reach > 119 * day then 119 * day else reach;
            && w.to <= now < w.to + 1_000_000 && w.to % 1_000_000 == 0
            && w.from <= now - back < w.from + 1_000_000 && w.from % 1_000_000 == 0
  {
    var start := WindowStart(config, cursor, now);
    FloorIsNear(now);
    FloorIsNear(start);
    assert config.initialWindowDays * DAY >= 0;
  }

  lemma FloorIsNear(t: Instant)
    ensures Floor(t) <= t < Floor(t) + 1_000_000 && Floor(t) % 1_000_000 == 0
  {
    assert t == (t / 1_000_000) * 1_000_000 + t % 1_000_000;
    assert Floor(t) == (t / 1_000_000) * 1_000_000;
  }

  /** What is stored: the cursor, and the windows whose data was committed with it. */
  datatype Sync = Sync(cursor: Option<Instant>, windows: seq<Window>)

  const FRESH := Sync(None, [])

  /** A run either commits data and cursor in one transaction, or leaves nothing behind. */
  datatype RunEvent = Committed(now: Instant) | Lost

  function Step(config: Config, s: Sync, e: RunEvent): Sync {
    match e
    case Lost => s
    case Committed(now) =>
      var w := WindowOf(config, s.cursor, now);
      Sync(Some(w.to), s.windows + [w])
  }

  function Runs(config: Config, events: seq<RunEvent>): Sync {
    if events == [] then FRESH else Step(config, Runs(config, events[..|events| - 1]), events[|events| - 1])
  }

  ghost predicate Covered(windows: seq<Window>, t: Instant) {
    exists i :: 0 <= i < |windows| && windows[i].from <= t <= windows[i].to
  }

  /** Nothing between the first window's start and the cursor was skipped. */
  ghost predicate Gapless(s: Sync) {
    && (s.cursor.Some? <==> s.windows != [])
    && (s.windows != [] ==> s.cursor == Some(s.windows[|s.windows| - 1].to))
    && (s.windows != [] ==> forall t | s.windows[0].from <= t <= s.cursor.value :: Covered(s.windows, t))
  }

  /** The run comes within 119 days of the run that stored the cursor. */
  predicate Prompt(s: Sync, e: RunEvent) {
    e.Committed? && s.cursor.Some? ==> Floor(e.now) <= s.cursor.value + MAX_WINDOW
  }

  ghost predicate AllPrompt(config: Config, events: seq<RunEvent>) {
    forall i | 0 <= i < |events| :: Prompt(Runs(config, events[..i]), events[i])
  }

  /** A prompt run's window starts no later than the cursor it read, unless the clock went back. */
  lemma WindowReachesBack(config: Config, c: Instant, now: Instant)
    requires Floor(c) == c
    ensures var w := WindowOf(config, Some(c), now);
            w.from <= c || w.to <= c <==> Floor(now) <= c + MAX_WINDOW
  {
    var start := WindowStart(config, Some(c), now);
    assert config.overlapMinutes * MINUTE >= 0;
    FloorShift(now);
    if start <= c { FloorMonotone(start, c); }
    if now <= c { FloorMonotone(now, c); }
  }

  lemma {:induction false} CoveredOneMore(windows: seq<Window>, w: Window, t: Instant)
    ensures Covered(windows + [w], t) <==> Covered(windows, t) || w.from <= t <= w.to
  {
    var all := windows + [w];
    if Covered(windows, t) {
      var i :| 0 <= i < |windows| && windows[i].from <= t <= windows[i].to;
      assert all[i] == windows[i];
    }
    if w.from <= t <= w.to {
      assert all[|windows|] == w;
    }
  }

  lemma StepKeepsCoverage(config: Config, s: Sync, e: RunEvent)
    requires Gapless(s) && (s.cursor.Some? ==> Floor(s.cursor.value) == s.cursor.value) && Prompt(s, e)
    ensures Gapless(Step(config, s, e))
  {
    if e.Committed? {
      var w := WindowOf(config, s.cursor, e.now);
      var next := Step(config, s, e);
      if s.cursor.Some? { WindowReachesBack(config, s.cursor.value, e.now); }
      forall t | next.windows[0].from <= t <= w.to ensures Covered(next.windows, t) {
        CoveredOneMore(s.windows, w, t);
      }
    }
  }

  lemma {:induction false} CursorIsText(config: Config, events: seq<RunEvent>)
    ensures var c := Runs(config, events).cursor; c.Some? ==> Floor(c.value) == c.value
  {
    if events == [] {
    } else {
      CursorIsText(config, events[..|events| - 1]);
    }
  }

  /**
   Over any sequence of committed, failed and interrupted runs, with a clock that may step back, the
   committed windows leave no gap up to the cursor, as long as no run comes more than 119 days late.
   */
  lemma {:induction false} CoverageOverRuns(config: Config, events: seq<RunEvent>)
    requires AllPrompt(config, events)
    ensures Gapless(Runs(config, events))
  {
    if events == [] {
    } else {
      var front := events[..|events| - 1];
      forall i | 0 <= i < |front| ensures Prompt(Runs(config, front[..i]), front[i]) {
        assert front[..i] == events[..i];
      }
      CoverageOverRuns(config, front);
      CursorIsText(config, front);
      StepKeepsCoverage(config, Runs(config, front), events[|events| - 1]);
    }
  }

  /** When the last committed run started. */
  function LastNow(events: seq<RunEvent>): Option<Instant> {
    if events == [] then None
    else if events[|events| - 1].Committed? then Some(events[|events| - 1].now)
    else LastNow(events[..|events| - 1])
  }

  /** The clock never steps back between committed runs. */
  predicate ClockIsSteady(events: seq<RunEvent>) {
    events != [] ==>
      var front, last := events[..|events| - 1], events[|events| - 1];
      ClockIsSteady(front) && (last.Committed? && LastNow(front).Some? ==> LastNow(front).value <= last.now)
  }

  /** Windows are ordered and end by the cursor. */
  ghost predicate EndByCursor(s: Sync) {
    && (s.cursor.Some? <==> s.windows != [])
    && forall i | 0 <= i < |s.windows| :: s.windows[i].from <= s.windows[i].to <= s.cursor.value
  }

  /** `t` was passed over, more than 119 days before `now`. */
  ghost predicate Hole(s: Sync, t: Instant, now: Instant) {
    && s.windows != [] && s.cursor.Some?
    && s.windows[0].from <= t <= s.cursor.value && !Covered(s.windows, t)
    && t < Floor(now) - MAX_WINDOW
  }

  lemma {:induction false} CursorIsLastNow(config: Config, events: seq<RunEvent>)
    ensures LastNow(events).None? ==> Runs(config, events).cursor.None?
    ensures LastNow(events).Some? ==> Runs(config, events).cursor == Some(Floor(LastNow(events).value))
  {
    if events == [] {
    } else {
      CursorIsLastNow(config, events[..|events| - 1]);
    }
  }

  lemma WindowStartsLate(config: Config, cursor: Option<Instant>, now: Instant)
    ensures Floor(now) - MAX_WINDOW <= WindowOf(config, cursor, now).from
  {
    WindowIsBounded(config, cursor, now);
  }

  lemma NextMillisecond(a: Instant, b: Instant)
    requires Floor(a) == a && a < Floor(b) - MAX_WINDOW
    ensures a + MILLISECOND <= Floor(b) - MAX_WINDOW
  {
    FloorShift(b);
    var j, k := a / MILLISECOND, (b - MAX_WINDOW) / MILLISECOND;
    assert a == j * MILLISECOND && Floor(b - MAX_WINDOW) == k * MILLISECOND;
    assert (k - j) * MILLISECOND == k * MILLISECOND - j * MILLISECOND;
  }

  /** One committed run under a steady clock keeps a hole, or makes one exactly when it comes too late. */
  lemma CommittedStep(config: Config, s: Sync, before: Option<Instant>, now: Instant)
    requires EndByCursor(s) && (before.None? ==> s.cursor.None?)
    requires before.Some? ==> s.cursor == Some(Floor(before.value)) && before.value <= now
    ensures EndByCursor(Step(config, s, Committed(now)))
    ensures forall t | before.Some? && Hole(s, t, before.value) :: Hole(Step(config, s, Committed(now)), t, now)
    ensures !Prompt(s, Committed(now)) ==> Hole(Step(config, s, Committed(now)), s.cursor.value + 1, now)
  {
    var w := WindowOf(config, s.cursor, now);
    var next := Step(config, s, Committed(now));
    WindowIsBounded(config, s.cursor, now);
    WindowStartsLate(config, s.cursor, now);
    if before.Some? { FloorMonotone(before.value, now); }
    hide WindowOf, WindowStart;
    forall t ensures Covered(next.windows, t) <==> Covered(s.windows, t) || w.from <= t <= w.to {
      CoveredOneMore(s.windows, w, t);
    }
    if !Prompt(s, Committed(now)) {
      var c := s.cursor.value;
      FloorIsFloor(before.value);
      NextMillisecond(c, now);
      assert !Covered(s.windows, c + 1);
      assert next.windows[0] == s.windows[0];
    }
  }

  lemma FloorIsFloor(t: Instant)
    ensures Floor(Floor(t)) == Floor(t)
  {
  }

  lemma AllPromptUnfolds(config: Config, events: seq<RunEvent>)
    requires events != []
    ensures AllPrompt(config, events) <==>
            AllPrompt(config, events[..|events| - 1]) && Prompt(Runs(config, events[..|events| - 1]), events[|events| - 1])
  {
    var front := events[..|events| - 1];
    assert forall i | 0 <= i < |front| :: front[..i] == events[..i];
    hide Prompt, Runs;
    if AllPrompt(config, events) {
      assert Prompt(Runs(config, events[..|front|]), events[|front|]);
      forall i | 0 <= i < |front| ensures Prompt(Runs(config, front[..i]), front[i]) {
        assert Prompt(Runs(config, events[..i]), events[i]);
      }
    }
    if AllPrompt(config, front) && Prompt(Runs(config, front), events[|front|]) {
      forall i | 0 <= i < |events| ensures Prompt(Runs(config, events[..i]), events[i]) {
        if i < |front| { assert Prompt(Runs(config, front[..i]), front[i]); }
      }
    }
  }

  lemma {:induction false} LateLeavesHole(config: Config, events: seq<RunEvent>)
    requires ClockIsSteady(events)
    ensures EndByCursor(Runs(config, events))
    ensures !AllPrompt(config, events) ==>
              LastNow(events).Some? && exists t :: Hole(Runs(config, events), t, LastNow(events).value)
  {
    if events == [] {
    } else {
      var front, last := events[..|events| - 1], events[|events| - 1];
      LateLeavesHole(config, front);
      AllPromptUnfolds(config, events);
      CursorIsLastNow(config, front);
      var s := Runs(config, front);
      hide EndByCursor, Hole, AllPrompt, Step, Floor;
      if last.Committed? {
        CommittedStep(config, s, LastNow(front), last.now);
        if !AllPrompt(config, front) {
          var t :| Hole(s, t, LastNow(front).value);
          assert Hole(Runs(config, events), t, last.now);
        } else if !Prompt(s, last) {
          assert Hole(Runs(config, events), s.cursor.value + 1, last.now);
        }
      } else {
        LostStep(config, s, last);
      }
    }
  }

  lemma LostStep(config: Config, s: Sync, e: RunEvent)
    requires e.Lost?
    ensures Step(config, s, e) == s && Prompt(s, e)
  {
  }

  /** Under a clock that never steps back, no instant is passed over if and only if every run was prompt. */
  lemma GaplessExactly(config: Config, events: seq<RunEvent>)
    requires ClockIsSteady(events)
    ensures Gapless(Runs(config, events)) <==> AllPrompt(config, events)
  {
    if AllPrompt(config, events) {
      CoverageOverRuns(config, events);
    } else {
      LateLeavesHole(config, events);
      var t :| Hole(Runs(config, events), t, LastNow(events).value);
    }
  }

  // ---------------------------------------------------------------- paging

  type Size = n: nat | n <= USIZE_MAX

  const MAX_PAGES: nat := 500

  /** What a request gives: a page of the result list, or any transport or format error. */
  datatype Response<R> = Page(total: Size, records: seq<R>) | Broken

  datatype PagingError = SafetyLimit | RequestFailed

  /** The parsed records, in order; those that do not parse are left out. */
  function ParseAll<R, P>(parse: R -> Option<P>, records: seq<R>): seq<P> {
    if records == [] then [] else
      var last := parse(records[|records| - 1]);
      ParseAll(parse, records[..|records| - 1]) + if last.Some? then [last.value] else []
  }

  /** The records seen from `start` on, when `pages` requests have been made. */
  function Gather<R>(server: (nat, nat) -> Response<R>, start: nat, pages: nat): Result<seq<R>, PagingError>
    decreases MAX_PAGES - pages
  {
    if pages >= MAX_PAGES then Err(SafetyLimit) else
      match server(pages + 1, start)
      case Broken => Err(RequestFailed)
      case Page(total, records) =>
        if records == [] then Ok([])
        else
          var next := SaturatingAdd(start, |records|, USIZE_MAX);
          if next >= total then Ok(records) else
            var rest := Gather(server, next, pages + 1);
            if rest.Ok? then Ok(records + rest.value) else rest
  }

  // ---------------------------------------------------------------- walks of requests

  /** One request and its answer. */
  datatype Exchange<R> = Exchange(start: nat, response: Response<R>)

  /** The index that follows a page. */
  function NextStart<R>(x: Exchange<R>): nat
    requires x.response.Page?
  {
    if x.start + |x.response.records| <= 0xFFFF_FFFF_FFFF_FFFF then x.start + |x.response.records| else 0xFFFF_FFFF_FFFF_FFFF
  }

  /** A page after which there is more to ask for. */
  predicate GoesOn<R>(x: Exchange<R>) {
    x.response.Page? && |x.response.records| > 0 && NextStart(x) < x.response.total
  }

  /** Request i of a walk: the first asks for index 0, a later one follows a page that goes on and asks for what follows it. */
  ghost predicate IsRequest<R>(server: (nat, nat) -> Response<R>, walk: seq<Exchange<R>>, i: nat)
    requires i < |walk|
  {
    && walk[i].response == server(i + 1, walk[i].start)
    && if i == 0 then walk[i].start == 0 else GoesOn(walk[i - 1]) && walk[i].start == NextStart(walk[i - 1])
  }

  ghost predicate IsWalk<R>(server: (nat, nat) -> Response<R>, walk: seq<Exchange<R>>) {
    forall i: nat | i < |walk| :: IsRequest(server, walk, i)
  }

  /** The records of all pages, in order. */
  function RecordsIn<R>(walk: seq<Exchange<R>>): seq<R> {
    if walk == [] then [] else
      var last := walk[|walk| - 1];
      RecordsIn(walk[..|walk| - 1]) + if last.response.Page? then last.response.records else []
  }

  /**
   How a walk ends: well, with the records of all its pages, when its last page is empty or reaches the total; in
   failure when its last request was not answered with a page, or when 500 pages have not been enough.
   */
  ghost predicate EndsIn<R>(walk: seq<Exchange<R>>, r: Result<seq<R>, PagingError>) {
    && 1 <= |walk| <= 500
    && (r.Ok? <==> walk[|walk| - 1].response.Page? && !GoesOn(walk[|walk| - 1]))
    && (r.Ok? ==> r.value == RecordsIn(walk))
    && (r == Err(RequestFailed) <==> walk[|walk| - 1].response.Broken?)
    && (r == Err(SafetyLimit) <==> |walk| == 500 && GoesOn(walk[499]))
  }

  /** A walk all of whose pages go on, ready for the next request. */
  ghost predicate Underway<R>(server: (nat, nat) -> Response<R>, walk: seq<Exchange<R>>, start: nat) {
    && IsWalk(server, walk)
    && (if walk == [] then start == 0 else GoesOn(walk[|walk| - 1]) && start == NextStart(walk[|walk| - 1]))
  }

  lemma WalkGrows<R>(server: (nat, nat) -> Response<R>, walk: seq<Exchange<R>>, start: nat)
    requires Underway(server, walk, start)
    ensures IsWalk(server, walk + [Exchange(start, server(|walk| + 1, start))])
  {
    hide NextStart;
    var whole := walk + [Exchange(start, server(|walk| + 1, start))];
    assert forall i | 0 <= i < |walk| :: whole[i] == walk[i];
    forall i: nat | i < |whole| ensures IsRequest(server, whole, i) {
      if i < |walk| { assert IsRequest(server, walk, i); }
    }
  }

  lemma RecordsGrow<R>(walk: seq<Exchange<R>>, x: Exchange<R>)
    ensures RecordsIn(walk + [x]) == RecordsIn(walk) + if x.response.Page? then x.response.records else []
  {
    assert (walk + [x])[..|walk|] == walk;
  }

  /** What is gathered is what a walk of requests brings, whatever the server answers. */
  lemma {:induction false} GatherIsWalk<R>(server: (nat, nat) -> Response<R>, walk: seq<Exchange<R>>, start: nat)
    returns (whole: seq<Exchange<R>>)
    requires Underway(server, walk, start) && |walk| < 500
    ensures IsWalk(server, whole) && EndsIn(whole, Extend(RecordsIn(walk), Gather(server, start, |walk|)))
    decreases 500 - |walk|
  {
    var x := Exchange(start, server(|walk| + 1, start));
    WalkGrows(server, walk, start);
    RecordsGrow(walk, x);
    whole := walk + [x];
    if x.response.Page? && x.response.records != [] {
      OnePageMore(server, RecordsIn(walk), start, |walk|);
    }
    if x.response.Page? && x.response.records == [] {
      assert RecordsIn(walk) + [] == RecordsIn(walk);
    }
    if GoesOn(x) && |whole| < 500 {
      whole := GatherIsWalk(server, whole, NextStart(x));
    }
  }

  /** What the loop still has to add to what it holds. */
  function Extend<R>(seen: seq<R>, rest: Result<seq<R>, PagingError>): Result<seq<R>, PagingError> {
    if rest.Ok? then Ok(seen + rest.value) else rest
  }

  lemma ExtendNothing<R>(rest: Result<seq<R>, PagingError>)
    ensures Extend([], rest) == rest
  {
    if rest.Ok? { assert [] + rest.value == rest.value; }
  }

  /** A record is kept exactly if it parses; with the law of concatenation that says what is kept of any list. */
  lemma ParseOne<R, P>(parse: R -> Option<P>, record: R)
    ensures ParseAll(parse, [record]) == if parse(record).Some? then [parse(record).value] else []
    ensures ParseAll(parse, []) == []
  {
    assert [record][..0] == [];
  }

  lemma {:induction false} ParseConcat<R, P>(parse: R -> Option<P>, a: seq<R>, b: seq<R>)
    ensures ParseAll(parse, a + b) == ParseAll(parse, a) + ParseAll(parse, b)
  {
    if b == [] {
      assert a + b == a;
    } else {
      assert (a + b)[..|a + b| - 1] == a + b[..|b| - 1];
      ParseConcat(parse, a, b[..|b| - 1]);
    }
  }

  /** A nonempty page moves its records from what is still to come to what has been seen. */
  lemma OnePageMore<R>(server: (nat, nat) -> Response<R>, seen: seq<R>, start: nat, pages: nat)
    requires pages < MAX_PAGES && server(pages + 1, start).Page? && server(pages + 1, start).records != []
    ensures var page := server(pages + 1, start);
            var next := SaturatingAdd(start, |page.records|, USIZE_MAX);
            Extend(seen, Gather(server, start, pages))
            == if next < page.total then Extend(seen + page.records, Gather(server, next, pages + 1)) else Ok(seen + page.records)
  {
    var page := server(pages + 1, start);
    var next := SaturatingAdd(start, |page.records|, USIZE_MAX);
    var rest := Gather(server, next, pages + 1);
    if rest.Ok? {
      assert seen + (page.records + rest.value) == seen + page.records + rest.value;
    }
  }

  /** The last answer of a walk that ends well. */
  ghost predicate Closed<R>(walk: seq<Exchange<R>>) {
    walk != [] && walk[|walk| - 1].response.Page? && !GoesOn(walk[|walk| - 1])
  }

  /** Where the paging loop stands. */
  ghost predicate Fetching<R, P>(server: (nat, nat) -> Response<R>, parse: R -> Option<P>, walk: seq<Exchange<R>>,
                                 startIndex: nat, total: nat, batch: seq<P>, fetched: nat, pages: nat)
  {
    && pages == |walk| <= 500 && IsWalk(server, walk)
    && batch == ParseAll(parse, RecordsIn(walk)) && fetched == SaturatingAdd(0, |RecordsIn(walk)|, USIZE_MAX)
    && (if startIndex < total
        then Underway(server, walk, startIndex) && Gather(server, 0, 0) == Extend(RecordsIn(walk), Gather(server, startIndex, pages))
        else Closed(walk) && Gather(server, 0, 0) == Ok(RecordsIn(walk)))
  }

  /** One more request. */
  lemma FetchStep<R, P>(server: (nat, nat) -> Response<R>, parse: R -> Option<P>, walk: seq<Exchange<R>>,
                        startIndex: nat, total: nat, batch: seq<P>, fetched: nat, pages: nat)
    requires Fetching(server, parse, walk, startIndex, total, batch, fetched, pages) && startIndex < total && pages < 500
    ensures var response := server(pages + 1, startIndex);
            var more := walk + [Exchange(startIndex, response)];
            && IsWalk(server, more)
            && (response.Broken? ==> Gather(server, 0, 0) == Err(RequestFailed))
            && (response.Page? && response.records == [] ==>
                  Closed(more) && RecordsIn(more) == RecordsIn(walk) && Gather(server, 0, 0) == Ok(RecordsIn(more)))
            && (response.Page? && response.records != [] ==>
                  Fetching(server, parse, more, SaturatingAdd(startIndex, |response.records|, USIZE_MAX), response.total,
                           batch + ParseAll(parse, response.records), SaturatingAdd(fetched, |response.records|, USIZE_MAX), pages + 1))
  {
    var response := server(pages + 1, startIndex);
    var x := Exchange(startIndex, response);
    WalkGrows(server, walk, startIndex);
    RecordsGrow(walk, x);
    if response.Page? {
      assert RecordsIn(walk) + [] == RecordsIn(walk);
      ParseConcat(parse, RecordsIn(walk), response.records);
      if response.records != [] {
        OnePageMore(server, RecordsIn(walk), startIndex, pages);
      }
    }
    hide IsWalk, ParseAll, RecordsIn;
  }

  /** Five hundred pages have not been enough. */
  lemma LimitReached<R, P>(server: (nat, nat) -> Response<R>, parse: R -> Option<P>, walk: seq<Exchange<R>>,
                           startIndex: nat, total: nat, batch: seq<P>, fetched: nat)
    requires Fetching(server, parse, walk, startIndex, total, batch, fetched, 500) && startIndex < total
    ensures Gather(server, 0, 0) == Err(SafetyLimit) && GoesOn(walk[499])
  {
  }

  lemma FetchingAtFirst<R, P>(server: (nat, nat) -> Response<R>, parse: R -> Option<P>)
    ensures Fetching(server, parse, [], 0, USIZE_MAX, [], 0, 0)
  {
    ExtendNothing(Gather(server, 0, 0));
  }

  /**
   The paging loop; the k-th request for start index s is answered by `server(k, s)`, and `walk` holds the requests
   made.  It ends well exactly when the last of them brought a page that is empty or reaches the total.
   */
  method FetchWindow<R, P>(server: (nat, nat) -> Response<R>, parse: R -> Option<P>)
    returns (r: Result<seq<P>, PagingError>, fetched: nat, pages: nat, ghost walk: seq<Exchange<R>>)
    ensures IsWalk(server, walk) && 1 <= |walk| <= 500
    ensures r.Ok? <==> walk[|walk| - 1].response.Page? && !GoesOn(walk[|walk| - 1])
    ensures r.Ok? ==> r.value == ParseAll(parse, RecordsIn(walk)) && fetched == SaturatingAdd(0, |RecordsIn(walk)|, USIZE_MAX)
    ensures r == Err(RequestFailed) <==> walk[|walk| - 1].response.Broken?
    ensures r == Err(SafetyLimit) <==> |walk| == 500 && GoesOn(walk[499])
    ensures Gather(server, 0, 0) == if r.Ok? then Ok(RecordsIn(walk)) else Err(r.error)
    ensures pages <= 501
  {
    var startIndex: nat := 0;
    var total: Size := USIZE_MAX;
    var batch: seq<P> := [];
    fetched, pages, walk := 0, 0, [];
    FetchingAtFirst(server, parse);
    while startIndex < total
      invariant Fetching(server, parse, walk, startIndex, total, batch, fetched, pages)
      decreases 500 - pages
    {
      if pages >= MAX_PAGES {
        LimitReached(server, parse, walk, startIndex, total, batch, fetched);
      } else {
        FetchStep(server, parse, walk, startIndex, total, batch, fetched, pages);
      }
      pages := pages + 1;
      if pages > MAX_PAGES {
        return Err(SafetyLimit), fetched, pages, walk;
      }
      var response := server(pages, startIndex);
      walk := walk + [Exchange(startIndex, response)];
      if response.Broken? {
        return Err(RequestFailed), fetched, pages, walk;
      }
      total := response.total;
      var records := response.records;
      if records == [] {
        return Ok(batch), fetched, pages, walk;
      }
      fetched := SaturatingAdd(fetched, |records|, USIZE_MAX);
      batch := batch + ParseAll(parse, records);
      startIndex := SaturatingAdd(startIndex, |records|, USIZE_MAX);
    }
    return Ok(batch), fetched, pages, walk;
  }

  /** What a run hands over to be committed: its records and, with them, the next cursor. */
  datatype Output<P> = Output(batch: seq<P>, fetched: nat, cursor: Instant)

  /** The window as the run computes it, step by step. */
  method ComputeWindow(config: Config, cursor: Option<Instant>, now: Instant) returns (w: Window)
    ensures w == WindowOf(config, cursor, now) && w.from <= w.to <= w.from + MAX_WINDOW
  {
    WindowIsBounded(config, cursor, now);
    var start := now - config.initialWindowDays * DAY;
    if cursor.Some? {
      start := cursor.value - config.overlapMinutes * MINUTE;
    }
    if start > now {
      start := now - DAY;
    }
    if now - start > MAX_WINDOW {
      start := now - MAX_WINDOW;
    }
    w := Window(Floor(start), Floor(now));
  }

  /** The server as it answers for one window. */
  function Asked<R>(server: (Window, nat, nat) -> Response<R>, w: Window): (nat, nat) -> Response<R> {
    (k: nat, s: nat) => server(w, k, s)
  }

  /** What one run of the adapter comes to. */
  function RunResult<R, P>(config: Config, cursor: Option<Instant>, now: Instant, server: (Window, nat, nat) -> Response<R>,
                           parse: R -> Option<P>): Result<Output<P>, PagingError>
  {
    var w := WindowOf(config, cursor, now);
    var all := Gather(Asked(server, w), 0, 0);
    if all.Ok? then Ok(Output(ParseAll(parse, all.value), SaturatingAdd(0, |all.value|, USIZE_MAX), w.to))
    else Err(all.error)
  }

  /** One run of the adapter: the window, the pages and the next cursor. */
  method Run<R, P>(config: Config, cursor: Option<Instant>, now: Instant, server: (Window, nat, nat) -> Response<R>, parse: R -> Option<P>)
    returns (r: Result<Output<P>, PagingError>, ghost walk: seq<Exchange<R>>)
    ensures r == RunResult(config, cursor, now, server, parse)
    ensures IsWalk(Asked(server, WindowOf(config, cursor, now)), walk) && 1 <= |walk| <= 500
    ensures r.Ok? <==> walk[|walk| - 1].response.Page? && !GoesOn(walk[|walk| - 1])
    ensures r.Ok? ==>
              && r.value.batch == ParseAll(parse, RecordsIn(walk)) && r.value.cursor == WindowOf(config, cursor, now).to
              && r.value.fetched == if |RecordsIn(walk)| <= 0xFFFF_FFFF_FFFF_FFFF then |RecordsIn(walk)| else 0xFFFF_FFFF_FFFF_FFFF
    ensures r == Err(RequestFailed) <==> walk[|walk| - 1].response.Broken?
  {
    var w := ComputeWindow(config, cursor, now);
    var paged, fetched, pages;
    paged, fetched, pages, walk := FetchWindow(Asked(server, w), parse);
    if paged.Err? {
      return Err(paged.error), walk;
    }
    return Ok(Output(paged.value, fetched, w.to)), walk;
  }

  // ---------------------------------------------------------------- a truthful server

  /** The response states the true total and holds a slice of the list, possibly empty, that starts at `s`. */
  ghost predicate TruthfulAt<R(!new)>(response: Response<R>, all: seq<R>, s: nat) {
    && response.Page? && response.total == |all|
    && s + |response.records| <= |all|
    && response.records == all[s..s + |response.records|]
  }

  ghost predicate Truthful<R(!new)>(server: (nat, nat) -> Response<R>, all: seq<R>) {
    && |all| <= USIZE_MAX
    && forall k: nat, s: nat | s == 0 || s < |all| :: TruthfulAt(server(k, s), all, s)
  }

  /** Truthful, and no in-range request is answered with an empty page. */
  ghost predicate Honest<R(!new)>(server: (nat, nat) -> Response<R>, all: seq<R>) {
    && Truthful(server, all)
    && forall k: nat, s: nat | s < |all| :: server(k, s).records != []
  }

  /** How many more requests end the walk, at the end of the list or at an empty page. */
  ghost function PagesNeeded<R(!new)>(server: (nat, nat) -> Response<R>, all: seq<R>, s: nat, k: nat): nat
    requires Truthful(server, all)
    decreases |all| - s
  {
    if s >= |all| then 0 else
      assert TruthfulAt(server(k + 1, s), all, s);
      var got := |server(k + 1, s).records|;
      if got == 0 then 1 else 1 + PagesNeeded(server, all, s + got, k + 1)
  }

  /** The walk is answered with an empty page at an index that is still in range. */
  ghost predicate MeetsEmptyPage<R(!new)>(server: (nat, nat) -> Response<R>, all: seq<R>, s: nat, k: nat)
    requires Truthful(server, all)
    decreases |all| - s
  {
    s < |all| &&
      (assert TruthfulAt(server(k + 1, s), all, s);
       var got := |server(k + 1, s).records|;
       got == 0 || MeetsEmptyPage(server, all, s + got, k + 1))
  }

  /** What the walk gathers from `s` on is what is left of the list, or a proper beginning of it. */
  ghost predicate Gathers<R(!new)>(server: (nat, nat) -> Response<R>, all: seq<R>, s: nat, k: nat)
    requires Truthful(server, all) && s <= |all| && k <= MAX_PAGES
  {
    var r := Gather(server, s, k);
    if k + PagesNeeded(server, all, s, k) > MAX_PAGES then r == Err(SafetyLimit)
    else r.Ok? && r.value <= all[s..] && (r.value == all[s..] <==> !MeetsEmptyPage(server, all, s, k))
  }

  lemma {:induction false} GathersFrom<R(!new)>(server: (nat, nat) -> Response<R>, all: seq<R>, s: nat, k: nat)
    requires Truthful(server, all) && s < |all| && k <= MAX_PAGES
    ensures Gathers(server, all, s, k)
    decreases |all| - s
  {
    assert TruthfulAt(server(k + 1, s), all, s);
    var records := server(k + 1, s).records;
    var next := s + |records|;
    assert all[s..] == records + all[next..];
    if k < MAX_PAGES && records != [] && next < |all| {
      GathersFrom(server, all, next, k + 1);
      var rest := Gather(server, next, k + 1);
      if rest.Ok? {
        assert records + rest.value == all[s..] <==> rest.value == all[next..];
      }
    }
  }

  /**
   Against a truthful server the loop fails exactly when its walk takes more than 500 requests.  Otherwise it
   takes the records in order from the first, and all of them if and only if it meets no early empty page.
   */
  lemma PagingExactly<R(!new)>(server: (nat, nat) -> Response<R>, all: seq<R>)
    requires Truthful(server, all)
    ensures var r := Gather(server, 0, 0);
            && (r.Err? <==> PagesNeeded(server, all, 0, 0) > MAX_PAGES)
            && (r.Err? ==> r.error == SafetyLimit)
            && (r.Ok? ==> r.value <= all && (r.value == all <==> !MeetsEmptyPage(server, all, 0, 0)))
  {
    if all == [] {
      assert TruthfulAt(server(1, 0), all, 0);
    } else {
      GathersFrom(server, all, 0, 0);
      assert all[0..] == all;
    }
  }

  lemma {:induction false} HonestMeetsNone<R(!new)>(server: (nat, nat) -> Response<R>, all: seq<R>, s: nat, k: nat)
    requires Honest(server, all)
    ensures !MeetsEmptyPage(server, all, s, k)
    decreases |all| - s
  {
    if s < |all| {
      assert TruthfulAt(server(k + 1, s), all, s);
      HonestMeetsNone(server, all, s + |server(k + 1, s).records|, k + 1);
    }
  }

  /** From an honest server the loop takes records 0..N-1 once each, in order, or needs more than 500 pages. */
  lemma PagingIsComplete<R(!new)>(server: (nat, nat) -> Response<R>, all: seq<R>)
    requires Honest(server, all)
    ensures Gather(server, 0, 0) == if PagesNeeded(server, all, 0, 0) <= MAX_PAGES then Ok(all) else Err(SafetyLimit)
  {
    PagingExactly(server, all);
    HonestMeetsNone(server, all, 0, 0);
  }

  /** Full pages of m records need ceil(N/m) requests, so the loop fails exactly above 500*m records. */
  lemma {:induction false} FullPages<R(!new)>(server: (nat, nat) -> Response<R>, all: seq<R>, m: nat, s: nat, k: nat)
    requires Truthful(server, all) && m >= 1 && s <= |all|
    requires forall k: nat, s: nat | s < |all| :: |server(k, s).records| == if |all| - s < m then |all| - s else m
    ensures forall n: nat :: PagesNeeded(server, all, s, k) <= n <==> |all| - s <= n * m
    decreases |all| - s
  {
    if s < |all| {
      assert TruthfulAt(server(k + 1, s), all, s);
      var next := s + |server(k + 1, s).records|;
      FullPages(server, all, m, next, k + 1);
      forall n: nat ensures PagesNeeded(server, all, s, k) <= n <==> |all| - s <= n * m {
        if n > 0 {
          assert n * m == (n - 1) * m + m;
          assert PagesNeeded(server, all, next, k + 1) <= n - 1 <==> |all| - next <= (n - 1) * m;
        }
      }
    } else {
      forall n: nat ensures n * m >= 0 {}
    }
  }

  // ---------------------------------------------------------------- the cursor and the page set

  lemma BoundedByList<R(!new)>(server: (nat, nat) -> Response<R>, all: seq<R>)
    requires Truthful(server, all)
    ensures |all| <= USIZE_MAX
  {
  }

  /**
   The cursor a run proposes is the end of its window whether or not it has seen the whole page set: it has
   if and only if its walk met no empty page before the end.
   */
  lemma CursorFollowsCompleteSet<R(!new), P>(config: Config, cursor: Option<Instant>, now: Instant,
                                             server: (Window, nat, nat) -> Response<R>, parse: R -> Option<P>, all: seq<R>)
    requires Truthful(Asked(server, WindowOf(config, cursor, now)), all)
    ensures var asked := Asked(server, WindowOf(config, cursor, now));
            var r := RunResult(config, cursor, now, server, parse);
            && (r.Ok? ==> r.value.cursor == WindowOf(config, cursor, now).to)
            && (r.Ok? ==> (r.value.fetched == |all| <==> !MeetsEmptyPage(asked, all, 0, 0)))
            && (r.Ok? && !MeetsEmptyPage(asked, all, 0, 0) ==> r.value.batch == ParseAll(parse, all))
  {
    hide WindowOf, Asked, Truthful, MeetsEmptyPage, PagesNeeded, Gather;
    PagingExactly(Asked(server, WindowOf(config, cursor, now)), all);
    BoundedByList(Asked(server, WindowOf(config, cursor, now)), all);
  }

  /** Two records, of which the second request brings none: the run succeeds, its cursor moves on and one is missing. */
  lemma EarlyEmptyPageIsTaken<P>(config: Config, cursor: Option<Instant>, now: Instant, first: string, second: string, parse: string -> Option<P>)
    ensures var server := (w: Window, k: nat, s: nat) => if s == 0 then Page(2, [first]) else Page(2, []);
            && Truthful(Asked(server, WindowOf(config, cursor, now)), [first, second])
            && RunResult(config, cursor, now, server, parse)
               == Ok(Output(ParseAll(parse, [first]), 1, WindowOf(config, cursor, now).to))
  {
    var server := (w: Window, k: nat, s: nat) => if s == 0 then Page(2, [first]) else Page(2, []);
    var asked := Asked(server, WindowOf(config, cursor, now));
    assert Gather(asked, 1, 1) == Ok([]);
    assert [first] + [] == [first];
  }
}
