/** One-time passwords: the request limit, single use, and what a run of requests and verifications keeps. */
module Otp {
  import opened Prelude

  datatype OtpCode = OtpCode(id: int, mobile: string, code: string, expiresAt: int, used: bool, createdAt: int)

  /** Times are in any unit the clocks share; users map to whether they are active. */
  datatype Policy = Policy(expiresAfter: int, limitCount: int, limitWindow: int)

  datatype Store = Store(users: map<string, bool>, codes: seq<OtpCode>, nextId: int)

  datatype RequestError = UserNotFoundOrInactive | TooManyRequests | NotDelivered

  datatype VerifyError = OtpInvalid | OtpExpired | Unauthorized

  predicate ActiveUser(s: Store, mobile: string) {
    mobile in s.users && s.users[mobile]
  }

  // ---- The steps ----

  /** Rows of a mobile created at or after a time. */
  function CountSince(codes: seq<OtpCode>, mobile: string, threshold: int): nat {
    if codes == [] then 0 else
      var last := codes[|codes| - 1];
      CountSince(codes[..|codes| - 1], mobile, threshold) + if last.mobile == mobile && last.createdAt >= threshold
        then 1 else 0
  }

  /** Marking is one bulk update over the mobile's unused rows. */
  function Invalidate(codes: seq<OtpCode>, mobile: string): (r: seq<OtpCode>)
    ensures |r| == |codes|
    ensures forall i :: 0 <= i < |codes| ==>
      r[i] == if codes[i].mobile == mobile then codes[i].(used := true) else codes[i]
  {
    Map((c: OtpCode) => if c.mobile == mobile then c.(used := true) else c, codes)
  }

  /** The unused row created last; between rows of one time, the later one. */
  function LatestUnused(codes: seq<OtpCode>, mobile: string): (r: Option<nat>)
    ensures r.Some? ==> r.value < |codes| && codes[r.value].mobile == mobile && !codes[r.value].used
    ensures r.None? ==> forall i :: 0 <= i < |codes| ==> !(codes[i].mobile == mobile && !codes[i].used)
    ensures r.Some? ==> forall i :: 0 <= i < |codes| ==>
      codes[i].mobile != mobile || codes[i].used || codes[i].createdAt <= codes[r.value].createdAt
  {
    if codes == [] then None else
      var n := |codes| - 1;
      var front := LatestUnused(codes[..n], mobile);
      if codes[n].mobile != mobile || codes[n].used then front
      else if front.None? || codes[front.value].createdAt <= codes[n].createdAt then Some(n) else front
  }

  /**
   request_otp. Three clock readings: `checked` for the limit, `stamped` for the expiry, and the database's own
   `created`; `delivered` is whether the provider accepted the message before the commit.
   */
  function RequestOtp(p: Policy, s: Store, mobile: string, code: string, checked: int, stamped: int, created: int,
      delivered: bool)
    : Result<Store, RequestError>
  {
    if !ActiveUser(s, mobile) then Err(UserNotFoundOrInactive)
    else if CountSince(s.codes, mobile, checked - p.limitWindow) >= p.limitCount then Err(TooManyRequests)
    else if !delivered then Err(NotDelivered)
    else
      var row := OtpCode(s.nextId, mobile, code, stamped + p.expiresAfter, false, created);
      Ok(s.(codes := Invalidate(s.codes, mobile) + [row], nextId := s.nextId + 1))
  }

  /**
   verify_otp: the row is used up even when the user turns out to be inactive; the id of the row is what is
   accepted.
   */
  function VerifyOtp(s: Store, mobile: string, code: string, now: int): (Store, Result<int, VerifyError>) {
    var latest := LatestUnused(s.codes, mobile);
    if latest.None? || s.codes[latest.value].code != code then (s, Err(OtpInvalid))
    else
      var row := s.codes[latest.value];
      if row.expiresAt <= now then (s, Err(OtpExpired))
      else
        var u := s.(codes := s.codes[latest.value := row.(used := true)]);
        (u, if ActiveUser(s, mobile) then Ok(row.id) else Err(Unauthorized))
  }

  // ---- Runs ----

  datatype Event =
    | Request(mobile: string, code: string, checked: int, stamped: int, created: int, delivered: bool)
    | Verify(mobile: string, code: string, now: int)
    | SetUser(mobile: string, active: bool)

  /** The store, and the ids accepted so far in order. */
  datatype History = History(store: Store, accepted: seq<int>)

  function Step(p: Policy, h: History, e: Event): History {
    match e
    case Request(mobile, code, checked, stamped, created, delivered) =>
      var r := RequestOtp(p, h.store, mobile, code, checked, stamped, created, delivered);
      if r.Ok? then h.(store := r.value) else h
    case Verify(mobile, code, now) =>
      var (u, r) := VerifyOtp(h.store, mobile, code, now);
      History(u, if r.Ok? then h.accepted + [r.value] else h.accepted)
    case SetUser(mobile, active) => h.(store := h.store.(users := h.store.users[mobile := active]))
  }

  const Start := History(Store(map[], [], 1), [])

  function Run(p: Policy, events: seq<Event>): History {
    if events == [] then Start else Step(p, Run(p, events[..|events| - 1]), events[|events| - 1])
  }

  // ---- One unused row per mobile, each accepted once ----

  predicate Pending(c: OtpCode, mobile: string) {
    c.mobile == mobile && !c.used
  }

  ghost predicate OneUnused(codes: seq<OtpCode>) {
    forall i, j :: 0 <= i < j < |codes| && !codes[i].used ==> !Pending(codes[j], codes[i].mobile)
  }

  ghost predicate Numbered(s: Store) {
    && (forall i :: 0 <= i < |s.codes| ==> s.codes[i].id < s.nextId)
    && (forall i, j :: 0 <= i < j < |s.codes| ==> s.codes[i].id < s.codes[j].id)
  }

  ghost predicate UsedUp(codes: seq<OtpCode>, id: int) {
    exists i :: 0 <= i < |codes| && codes[i].id == id && codes[i].used
  }

  /** What was accepted is a used row, and was accepted once. */
  ghost predicate AcceptedOnce(h: History) {
    Distinct(h.accepted) && forall a :: a in h.accepted ==> UsedUp(h.store.codes, a)
  }

  ghost predicate Sound(h: History) {
    OneUnused(h.store.codes) && Numbered(h.store) && AcceptedOnce(h)
  }

  lemma RequestSound(p: Policy, h: History, mobile: string, code: string, checked: int, stamped: int, created: int,
      delivered: bool)
    requires Sound(h) && RequestOtp(p, h.store, mobile, code, checked, stamped, created, delivered).Ok?
    ensures Sound(h.(store := RequestOtp(p, h.store, mobile, code, checked, stamped, created, delivered).value))
  {
    var codes := h.store.codes;
    var after := RequestOtp(p, h.store, mobile, code, checked, stamped, created, delivered).value.codes;
    forall a | a in h.accepted ensures UsedUp(after, a) {
      var i :| 0 <= i < |codes| && codes[i].id == a && codes[i].used;
      assert after[i].id == a && after[i].used;
    }
  }

  lemma VerifySound(h: History, mobile: string, code: string, now: int)
    requires Sound(h)
    ensures var (u, r) := VerifyOtp(h.store, mobile, code, now);
      Sound(History(u, if r.Ok? then h.accepted + [r.value] else h.accepted))
  {
    var codes := h.store.codes;
    var (u, r) := VerifyOtp(h.store, mobile, code, now);
    if u != h.store {
      var k := LatestUnused(codes, mobile).value;
      forall a | a in h.accepted ensures UsedUp(u.codes, a) && a != codes[k].id {
        var i :| 0 <= i < |codes| && codes[i].id == a && codes[i].used;
        assert u.codes[i].id == a && u.codes[i].used;
      }
      assert u.codes[k].id == codes[k].id && u.codes[k].used;
      assert UsedUp(u.codes, codes[k].id);
      var accepted := if r.Ok? then h.accepted + [r.value] else h.accepted;
      forall a | a in accepted ensures UsedUp(u.codes, a) {
      }
      assert Distinct(accepted);
    }
  }

  /** In every reachable state a mobile has at most one unused row, and no row was accepted twice. */
  lemma {:induction false} EveryRunIsSound(p: Policy, events: seq<Event>)
    ensures Sound(Run(p, events))
  {
    hide RequestOtp;
    hide VerifyOtp;
    if events != [] {
      var h, e := Run(p, events[..|events| - 1]), events[|events| - 1];
      EveryRunIsSound(p, events[..|events| - 1]);
      match e {
        case Request(mobile, code, checked, stamped, created, delivered) =>
          if RequestOtp(p, h.store, mobile, code, checked, stamped, created, delivered).Ok? {
            RequestSound(p, h, mobile, code, checked, stamped, created, delivered);
          }
        case Verify(mobile, code, now) => VerifySound(h, mobile, code, now);
        case SetUser(mobile, active) =>
      }
    }
  }

  // ---- A code works once, until it expires ----

  /** The code just sent verifies before its expiry, once; no other code and no later moment does. */
  lemma FreshCodeVerifies(p: Policy, s: Store, mobile: string, code: string, checked: int, stamped: int, created: int,
      tried: string, now: int)
    requires RequestOtp(p, s, mobile, code, checked, stamped, created, true).Ok?
    ensures var t := RequestOtp(p, s, mobile, code, checked, stamped, created, true).value;
      var (u, r) := VerifyOtp(t, mobile, tried, now);
      && (r == Ok(s.nextId) <==> tried == code && now < stamped + p.expiresAfter)
      && (r.Ok? ==> forall again, later :: VerifyOtp(u, mobile, again, later).1 == Err(OtpInvalid))
      && (r.Err? ==> u == t)
  {
    var t := RequestOtp(p, s, mobile, code, checked, stamped, created, true).value;
    var k := LatestUnused(t.codes, mobile);
    assert Pending(t.codes[|s.codes|], mobile);
    assert k == Some(|s.codes|);
    var (u, r) := VerifyOtp(t, mobile, tried, now);
    if r.Ok? {
      var l := LatestUnused(u.codes, mobile);
      assert l.None?;
    }
  }

  // ---- The request limit ----

  function CountWithin(codes: seq<OtpCode>, mobile: string, from: int, to: int): nat {
    if codes == [] then 0 else
      var last := codes[|codes| - 1];
      CountWithin(codes[..|codes| - 1], mobile, from, to) + if last.mobile == mobile && from <= last.createdAt <= to
        then 1 else 0
  }

  function Limit(p: Policy): nat {
    if p.limitCount < 0 then 0 else p.limitCount
  }

  lemma {:induction false} InvalidateCounts(codes: seq<OtpCode>, marked: string, mobile: string, from: int, to: int)
    ensures CountWithin(Invalidate(codes, marked), mobile, from, to) == CountWithin(codes, mobile, from, to)
  {
    if codes != [] {
      var n := |codes| - 1;
      InvalidateCounts(codes[..n], marked, mobile, from, to);
      assert Invalidate(codes, marked)[..n] == Invalidate(codes[..n], marked);
    }
  }

  lemma {:induction false} WithinIsSince(codes: seq<OtpCode>, mobile: string, from: int, to: int, threshold: int)
    ensures threshold <= from ==> CountWithin(codes, mobile, from, to) <= CountSince(codes, mobile, threshold)
    ensures (forall i :: 0 <= i < |codes| && codes[i].mobile == mobile ==> codes[i].createdAt <= to) ==>
      CountWithin(codes, mobile, from, to) == CountSince(codes, mobile, from)
  {
    if codes != [] {
      var n := |codes| - 1;
      WithinIsSince(codes[..n], mobile, from, to, threshold);
      if forall i :: 0 <= i < |codes| && codes[i].mobile == mobile ==> codes[i].createdAt <= to {
        forall i | 0 <= i < n && codes[..n][i].mobile == mobile ensures codes[..n][i].createdAt <= to {
          assert codes[..n][i] == codes[i];
        }
      }
    }
  }

  /** Rows written by a request: those there were, and the new one if its time is inside. */
  lemma RequestCounts(p: Policy, s: Store, mobile: string, code: string, checked: int, stamped: int, created: int,
      m: string, from: int, to: int)
    requires RequestOtp(p, s, mobile, code, checked, stamped, created, true).Ok?
    ensures CountWithin(RequestOtp(p, s, mobile, code, checked, stamped, created, true).value.codes, m, from, to) ==
      CountWithin(s.codes, m, from, to) + if m == mobile && from <= created <= to then 1 else 0
  {
    var codes := RequestOtp(p, s, mobile, code, checked, stamped, created, true).value.codes;
    assert codes[..|codes| - 1] == Invalidate(s.codes, mobile);
    InvalidateCounts(s.codes, mobile, m, from, to);
  }

  lemma {:induction false} UsedCounts(codes: seq<OtpCode>, k: nat, m: string, from: int, to: int)
    requires k < |codes|
    ensures CountWithin(codes[k := codes[k].(used := true)], m, from, to) == CountWithin(codes, m, from, to)
  {
    var n := |codes| - 1;
    var marked := codes[k := codes[k].(used := true)];
    if k < n {
      UsedCounts(codes[..n], k, m, from, to);
      assert marked[..n] == codes[..n][k := codes[..n][k].(used := true)];
    } else {
      assert marked[..n] == codes[..n];
    }
  }

  /** Every row is stamped by the database at most `lag` before the limit was checked for it. */
  ghost predicate Lagging(events: seq<Event>, lag: int) {
    forall i :: 0 <= i < |events| && events[i].Request? ==> events[i].created >= events[i].checked - lag
  }

  /**
   Over every run, a closed window holds at most the configured number of rows per mobile, if it is no longer than
   the configured window less the lag. With rows stamped no earlier than the check (lag 0) that is the whole window.
   */
  lemma {:induction false} WindowLimit(p: Policy, events: seq<Event>, lag: int, m: string, from: int, to: int)
    requires Lagging(events, lag) && to - from <= p.limitWindow - lag
    ensures CountWithin(Run(p, events).store.codes, m, from, to) <= Limit(p)
  {
    hide RequestOtp;
    hide LatestUnused;
    if events != [] {
      var front, e := events[..|events| - 1], events[|events| - 1];
      assert Lagging(front, lag) by {
        assert forall i :: 0 <= i < |front| ==> front[i] == events[i];
      }
      WindowLimit(p, front, lag, m, from, to);
      var s := Run(p, front).store;
      match e {
        case Request(mobile, code, checked, stamped, created, delivered) =>
          RequestWithinLimit(p, s, mobile, code, checked, stamped, created, delivered, lag, m, from, to);
        case Verify(mobile, code, now) =>
          var latest := LatestUnused(s.codes, mobile);
          if latest.Some? {
            UsedCounts(s.codes, latest.value, m, from, to);
          }
        case SetUser(mobile, active) =>
      }
    }
  }

  lemma RequestWithinLimit(p: Policy, s: Store, mobile: string, code: string, checked: int, stamped: int, created: int,
      delivered: bool, lag: int, m: string, from: int, to: int)
    requires created >= checked - lag && to - from <= p.limitWindow - lag
    requires CountWithin(s.codes, m, from, to) <= Limit(p)
    ensures var r := RequestOtp(p, s, mobile, code, checked, stamped, created, delivered);
      r.Ok? ==> CountWithin(r.value.codes, m, from, to) <= Limit(p)
  {
    if RequestOtp(p, s, mobile, code, checked, stamped, created, delivered).Ok? {
      RequestCounts(p, s, mobile, code, checked, stamped, created, m, from, to);
      if m == mobile && from <= created <= to {
        WithinIsSince(s.codes, mobile, from, to, checked - p.limitWindow);
      }
    }
  }

  /** No window of the configured length holds too many rows. */
  ghost predicate WindowsHold(p: Policy, codes: seq<OtpCode>, m: string) {
    forall from, to :: to - from <= p.limitWindow ==> CountWithin(codes, m, from, to) <= Limit(p)
  }

  /**
   A row stamped before its check can exceed the limit: the windows still hold after a request exactly when
   fewer rows than the limit lie within the window before the row's own time, which is not the time checked.
   */
  lemma WindowsHoldIff(p: Policy, s: Store, mobile: string, code: string, checked: int, stamped: int, created: int)
    requires WindowsHold(p, s.codes, mobile) && p.limitWindow >= 0
    requires forall i :: 0 <= i < |s.codes| && s.codes[i].mobile == mobile ==> s.codes[i].createdAt <= created
    requires RequestOtp(p, s, mobile, code, checked, stamped, created, true).Ok?
    ensures WindowsHold(p, RequestOtp(p, s, mobile, code, checked, stamped, created, true).value.codes, mobile) <==>
      CountSince(s.codes, mobile, created - p.limitWindow) < p.limitCount
  {
    var after := RequestOtp(p, s, mobile, code, checked, stamped, created, true).value.codes;
    var start := created - p.limitWindow;
    RequestCounts(p, s, mobile, code, checked, stamped, created, mobile, start, created);
    WithinIsSince(s.codes, mobile, start, created, start);
    if CountSince(s.codes, mobile, start) < p.limitCount {
      forall from, to | to - from <= p.limitWindow ensures CountWithin(after, mobile, from, to) <= Limit(p) {
        RequestCounts(p, s, mobile, code, checked, stamped, created, mobile, from, to);
        if from <= created <= to {
          WithinIsSince(s.codes, mobile, from, to, start);
        }
      }
    }
  }

  // ---- The windows over a run ----

  /** A request for m that writes a row. */
  predicate Writes(p: Policy, s: Store, e: Event, m: string) {
    e.Request? && e.mobile == m
    && RequestOtp(p, s, e.mobile, e.code, e.checked, e.stamped, e.created, e.delivered).Ok?
  }

  /** No row of m was created after a time. */
  ghost predicate NoLater(codes: seq<OtpCode>, m: string, time: int) {
    forall i :: 0 <= i < |codes| && codes[i].mobile == m ==> codes[i].createdAt <= time
  }

  /** The row times of m never go back. */
  ghost predicate RowsInOrder(p: Policy, events: seq<Event>, m: string) {
    events != [] ==>
      var front, e := events[..|events| - 1], events[|events| - 1];
      var s := Run(p, front).store;
      RowsInOrder(p, front, m) && (Writes(p, s, e, m) ==> NoLater(s.codes, m, e.created))
  }

  /** Every request that writes a row for m had fewer rows than the limit in the window before the row's own time. */
  ghost predicate AlwaysUnder(p: Policy, events: seq<Event>, m: string) {
    events != [] ==>
      var front, e := events[..|events| - 1], events[|events| - 1];
      var s := Run(p, front).store;
      AlwaysUnder(p, front, m)
      && (Writes(p, s, e, m) ==> CountSince(s.codes, m, e.created - p.limitWindow) < p.limitCount)
  }

  /** A step that writes no row for m leaves the counts of m alone. */
  lemma QuietStep(p: Policy, h: History, e: Event, m: string, from: int, to: int)
    requires !Writes(p, h.store, e, m)
    ensures CountWithin(Step(p, h, e).store.codes, m, from, to) == CountWithin(h.store.codes, m, from, to)
  {
    hide LatestUnused;
    match e {
      case Request(mobile, code, checked, stamped, created, delivered) =>
        if RequestOtp(p, h.store, mobile, code, checked, stamped, created, delivered).Ok? {
          RequestCounts(p, h.store, mobile, code, checked, stamped, created, m, from, to);
        }
      case Verify(mobile, code, now) =>
        var latest := LatestUnused(h.store.codes, mobile);
        if latest.Some? {
          UsedCounts(h.store.codes, latest.value, m, from, to);
        }
      case SetUser(mobile, active) =>
    }
  }

  /** Rows never leave a window. */
  lemma WritingStep(p: Policy, h: History, e: Event, m: string, from: int, to: int)
    requires Writes(p, h.store, e, m)
    ensures CountWithin(Step(p, h, e).store.codes, m, from, to) >= CountWithin(h.store.codes, m, from, to)
  {
    RequestCounts(p, h.store, e.mobile, e.code, e.checked, e.stamped, e.created, m, from, to);
  }

  lemma StepKeepsExcess(p: Policy, h: History, e: Event, m: string)
    requires WindowsHold(p, Step(p, h, e).store.codes, m)
    ensures WindowsHold(p, h.store.codes, m)
  {
    forall from, to | to - from <= p.limitWindow ensures CountWithin(h.store.codes, m, from, to) <= Limit(p) {
      if Writes(p, h.store, e, m) {
        WritingStep(p, h, e, m, from, to);
      } else {
        QuietStep(p, h, e, m, from, to);
      }
    }
  }

  lemma StepWindows(p: Policy, h: History, e: Event, m: string)
    requires WindowsHold(p, h.store.codes, m) && p.limitWindow >= 0
    requires Writes(p, h.store, e, m) ==> NoLater(h.store.codes, m, e.created)
    ensures WindowsHold(p, Step(p, h, e).store.codes, m) <==>
      (Writes(p, h.store, e, m) ==> CountSince(h.store.codes, m, e.created - p.limitWindow) < p.limitCount)
  {
    hide CountWithin;
    if Writes(p, h.store, e, m) {
      WindowsHoldIff(p, h.store, e.mobile, e.code, e.checked, e.stamped, e.created);
    } else {
      forall from, to | to - from <= p.limitWindow
        ensures CountWithin(Step(p, h, e).store.codes, m, from, to) <= Limit(p)
      {
        QuietStep(p, h, e, m, from, to);
      }
    }
  }

  /**
   Over every run whose row times never go back, every closed window of the configured length holds at most the
   configured number of rows exactly when each row was within the limit at its own time.
   */
  lemma {:induction false} WindowsHoldOverRuns(p: Policy, events: seq<Event>, m: string)
    requires p.limitWindow >= 0 && RowsInOrder(p, events, m)
    ensures WindowsHold(p, Run(p, events).store.codes, m) <==> AlwaysUnder(p, events, m)
  {
    hide WindowsHold;
    hide Writes;
    hide NoLater;
    hide Step;
    if events == [] {
      NoRows(p, m);
    } else {
      var front, e := events[..|events| - 1], events[|events| - 1];
      WindowsHoldOverRuns(p, front, m);
      if WindowsHold(p, Run(p, front).store.codes, m) {
        StepWindows(p, Run(p, front), e, m);
      } else if WindowsHold(p, Run(p, events).store.codes, m) {
        StepKeepsExcess(p, Run(p, front), e, m);
      }
    }
  }

  lemma NoRows(p: Policy, m: string)
    ensures WindowsHold(p, [], m)
  {
  }

  lemma {:induction false} OldRows(codes: seq<OtpCode>, m: string, threshold: int)
    requires forall i :: 0 <= i < |codes| ==> codes[i].createdAt == 0
    ensures CountSince(codes, m, threshold) <= |codes| && (threshold > 0 ==> CountSince(codes, m, threshold) == 0)
  {
    if codes != [] {
      OldRows(codes[..|codes| - 1], m, threshold);
    }
  }

  lemma RunPush(p: Policy, events: seq<Event>, e: Event)
    ensures Run(p, events + [e]) == Step(p, Run(p, events), e)
  {
    assert (events + [e])[..|events|] == events;
  }

  /** A few requests at second 0. */
  function Early(n: nat): seq<Event> {
    if n == 0 then [SetUser("m", true)] else Early(n - 1) + [Request("m", "1", 0, 0, 0, true)]
  }

  /** A store with so many rows, all of them of second 0. */
  ghost predicate AtZero(s: Store, n: nat) {
    && ActiveUser(s, "m") && |s.codes| == n && (forall i :: 0 <= i < n ==> s.codes[i].createdAt == 0)
    && CountWithin(s.codes, "m", 0, 600) == n
  }

  lemma EarlyRequest(p: Policy, s: Store, n: nat)
    requires p.limitCount == 3 && p.limitWindow == 600 && n < 3 && AtZero(s, n)
    ensures var r := RequestOtp(p, s, "m", "1", 0, 0, 0, true); r.Ok? && AtZero(r.value, n + 1)
  {
    OldRows(s.codes, "m", -600);
    RequestCounts(p, s, "m", "1", 0, 0, 0, "m", 0, 600);
  }

  lemma {:induction false} EarlyRows(n: nat)
    requires n <= 3
    ensures AtZero(Run(Policy(120, 3, 600), Early(n)).store, n)
  {
    hide RequestOtp;
    var p := Policy(120, 3, 600);
    if n == 0 {
      RunPush(p, [], SetUser("m", true));
      assert [] + [SetUser("m", true)] == Early(0);
    } else {
      hide AtZero;
      EarlyRows(n - 1);
      RunPush(p, Early(n - 1), Request("m", "1", 0, 0, 0, true));
      EarlyRequest(p, Run(p, Early(n - 1)).store, n - 1);
    }
  }

  /** Three requests at second 0, and a fourth checked at second 601 in a transaction that began at second 600. */
  lemma LaggingRowExceedsLimit()
    ensures var late := Request("m", "2", 601, 601, 600, true);
      CountWithin(Run(Policy(120, 3, 600), Early(3) + [late]).store.codes, "m", 0, 600) == 4
  {
    var p := Policy(120, 3, 600);
    EarlyRows(3);
    RunPush(p, Early(3), Request("m", "2", 601, 601, 600, true));
    var s := Run(p, Early(3)).store;
    OldRows(s.codes, "m", 1);
    RequestCounts(p, s, "m", "2", 601, 601, 600, "m", 0, 600);
  }
}
