/** The answer to each request and each verification, and the rows it leaves. */
module OtpAnswers {
  import opened Prelude
  import opened Otp

  predicate Active(s: Store, mobile: string) {
    mobile in s.users && s.users[mobile]
  }

  // ---- Requests ----

  /** The rows of the mobile created at the threshold or later. */
  function Recent(codes: seq<OtpCode>, mobile: string, threshold: int): set<int> {
    set i | 0 <= i < |codes| && codes[i].mobile == mobile && codes[i].createdAt >= threshold
  }

  lemma RecentPush(codes: seq<OtpCode>, last: OtpCode, mobile: string, threshold: int)
    ensures Recent(codes + [last], mobile, threshold) == Recent(codes, mobile, threshold) +
      if last.mobile == mobile && last.createdAt >= threshold then {|codes|} else {}
  {
    var all := codes + [last];
    forall i | i in Recent(all, mobile, threshold)
      ensures i in Recent(codes, mobile, threshold)
        || (i == |codes| && last.mobile == mobile && last.createdAt >= threshold)
    {
      assert i < |codes| ==> all[i] == codes[i];
    }
    forall i | i in Recent(codes, mobile, threshold) ensures i in Recent(all, mobile, threshold) {
      assert all[i] == codes[i];
    }
    assert all[|codes|] == last;
  }

  lemma {:induction false} CountIsSize(codes: seq<OtpCode>, mobile: string, threshold: int)
    ensures CountSince(codes, mobile, threshold) == |Recent(codes, mobile, threshold)|
  {
    if codes != [] {
      var n := |codes| - 1;
      CountIsSize(codes[..n], mobile, threshold);
      assert codes == codes[..n] + [codes[n]];
      RecentPush(codes[..n], codes[n], mobile, threshold);
    } else {
      assert Recent(codes, mobile, threshold) == {};
    }
  }

  /** A request's effect: the mobile's rows are used up and one unused row with the code is added. */
  predicate Requested(s: Store, after: Store, row: OtpCode) {
    && after.users == s.users && |after.codes| == |s.codes| + 1 && after.codes[|s.codes|] == row
    && forall i :: 0 <= i < |s.codes| ==>
         if s.codes[i].mobile == row.mobile then after.codes[i] == s.codes[i].(used := true)
         else after.codes[i] == s.codes[i]
  }

  predicate RequestRefused(s: Store, mobile: string, recent: int, limit: int, error: RequestError) {
    error == if !Active(s, mobile) then UserNotFoundOrInactive else if recent >= limit then TooManyRequests
      else NotDelivered
  }

  /**
   A code is sent exactly to an active user who had fewer than the limit in the window before the check, if it can be
   delivered; the codes of other mobiles are as they were.
   */
  lemma RequestIff(p: Policy, s: Store, mobile: string, code: string, checked: int, stamped: int, created: int,
      delivered: bool)
    ensures var r := RequestOtp(p, s, mobile, code, checked, stamped, created, delivered);
      var recent := |Recent(s.codes, mobile, checked - p.limitWindow)|;
      && (r.Ok? <==> Active(s, mobile) && recent < p.limitCount && delivered)
      && (r.Ok? ==>
            Requested(s, r.value, OtpCode(s.nextId, mobile, code, stamped + p.expiresAfter, false, created)))
      && (r.Err? ==> RequestRefused(s, mobile, recent, p.limitCount, r.error))
  {
    CountIsSize(s.codes, mobile, checked - p.limitWindow);
  }

  // ---- Verification ----

  /** The mobile's latest unused row. */
  predicate LatestPending(codes: seq<OtpCode>, mobile: string, i: nat) {
    && i < |codes| && Pending(codes[i], mobile)
    && forall j :: 0 <= j < |codes| && j != i && Pending(codes[j], mobile) ==> codes[j].createdAt < codes[i].createdAt
  }

  /**
   Against the latest unused row: a wrong code and an expired one change nothing; the right one in time uses the row
   up, and is accepted exactly for an active user.
   */
  lemma VerifyLatest(s: Store, mobile: string, code: string, now: int, i: nat)
    requires LatestPending(s.codes, mobile, i)
    ensures VerifyOtp(s, mobile, code, now) ==
      var row := s.codes[i];
      if row.code != code then (s, Err(OtpInvalid))
      else if row.expiresAt <= now then (s, Err(OtpExpired))
      else (s.(codes := s.codes[i := row.(used := true)]), if Active(s, mobile) then Ok(row.id) else Err(Unauthorized))
  {
    assert LatestUnused(s.codes, mobile) == Some(i);
  }

  lemma VerifyNone(s: Store, mobile: string, code: string, now: int)
    requires forall i :: 0 <= i < |s.codes| ==> !Pending(s.codes[i], mobile)
    ensures VerifyOtp(s, mobile, code, now) == (s, Err(OtpInvalid))
  {
  }

  /**
   After any run a verification is accepted exactly when the mobile has an unused row that carries the code and has
   not expired, and its user is active; that row is then used, and no other row changes.
   */
  lemma VerifyIff(p: Policy, events: seq<Event>, mobile: string, code: string, now: int)
    ensures var s := Run(p, events).store; var (u, r) := VerifyOtp(s, mobile, code, now);
      && (r.Ok? <==> Active(s, mobile) && exists i :: InTime(s, mobile, code, now, i))
      && (r == Err(Unauthorized) <==> !Active(s, mobile) && exists i :: InTime(s, mobile, code, now, i))
      && (forall i :: InTime(s, mobile, code, now, i) ==> u == s.(codes := s.codes[i := s.codes[i].(used := true)]))
      && ((forall i :: !InTime(s, mobile, code, now, i)) ==> u == s)
  {
    hide Run;
    hide VerifyOtp;
    EveryRunIsSound(p, events);
    var s := Run(p, events).store;
    if i :| 0 <= i < |s.codes| && Pending(s.codes[i], mobile) {
      assert LatestPending(s.codes, mobile, i);
      VerifyLatest(s, mobile, code, now, i);
      forall j | InTime(s, mobile, code, now, j) ensures j == i {
      }
      assert s.codes[i].code == code && now < s.codes[i].expiresAt <==> InTime(s, mobile, code, now, i);
    } else {
      VerifyNone(s, mobile, code, now);
    }
  }

  /** The row is unused, carries the code and has not expired. */
  predicate InTime(s: Store, mobile: string, code: string, now: int, i: int) {
    0 <= i < |s.codes| && Pending(s.codes[i], mobile) && s.codes[i].code == code && now < s.codes[i].expiresAt
  }
}
