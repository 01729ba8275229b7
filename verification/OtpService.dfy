/** The one-time password table as the service works on it. */
module OtpService {
  import opened Prelude
  import opened Otp

  class OtpTable {
    const policy: Policy
    var users: map<string, bool>
    var codes: seq<OtpCode>
    var nextId: int

    constructor (policy: Policy)
      ensures this.policy == policy && Contents() == Start.store
    {
      this.policy := policy;
      users, codes, nextId := map[], [], 1;
    }

    function Contents(): Store
      reads this
    {
      Store(users, codes, nextId)
    }

    method EnforceRateLimit(mobile: string, now: int) returns (ok: bool)
      ensures ok <==> CountSince(codes, mobile, now - policy.limitWindow) < policy.limitCount
    {
      var threshold := now - policy.limitWindow;
      var requestCount := 0;
      for i := 0 to |codes|
        invariant requestCount == CountSince(codes[..i], mobile, threshold)
      {
        assert codes[..i + 1][..i] == codes[..i];
        if codes[i].mobile == mobile && codes[i].createdAt >= threshold {
          requestCount := requestCount + 1;
        }
      }
      assert codes[..|codes|] == codes;
      ok := requestCount < policy.limitCount;
    }

    method InvalidatePreviousOtps(mobile: string)
      modifies this`codes
      ensures codes == Invalidate(old(codes), mobile)
    {
      for i := 0 to |codes|
        invariant |codes| == |old(codes)|
        invariant forall k :: 0 <= k < i ==> codes[k] == Invalidate(old(codes), mobile)[k]
        invariant forall k :: i <= k < |codes| ==> codes[k] == old(codes)[k]
      {
        if codes[i].mobile == mobile && !codes[i].used {
          codes := codes[i := codes[i].(used := true)];
        }
      }
    }

    method GetLatestUnusedOtp(mobile: string) returns (latest: Option<nat>)
      ensures latest == LatestUnused(codes, mobile)
    {
      latest := None;
      for i := 0 to |codes|
        invariant latest == LatestUnused(codes[..i], mobile)
      {
        assert codes[..i + 1][..i] == codes[..i];
        if codes[i].mobile == mobile && !codes[i].used {
          if latest.None? || codes[latest.value].createdAt <= codes[i].createdAt {
            latest := Some(i);
          }
        }
      }
      assert codes[..|codes|] == codes;
    }

    /** The table is written before the provider is asked; a failure rolls it back. */
    method Request(mobile: string, code: string, checked: int, stamped: int, created: int, delivered: bool)
      returns (result: Result<(), RequestError>)
      modifies this
      ensures users == old(users)
      ensures var spec := RequestOtp(policy, old(Contents()), mobile, code, checked, stamped, created, delivered);
        if spec.Err? then result == Err(spec.error) && Contents() == old(Contents())
        else result == Ok(()) && Contents() == spec.value
    {
      if !ActiveUser(Contents(), mobile) {
        return Err(UserNotFoundOrInactive);
      }
      var allowed := EnforceRateLimit(mobile, checked);
      if !allowed {
        return Err(TooManyRequests);
      }
      var saved, savedId := codes, nextId;
      InvalidatePreviousOtps(mobile);
      codes := codes + [OtpCode(nextId, mobile, code, stamped + policy.expiresAfter, false, created)];
      nextId := nextId + 1;
      if !delivered {
        codes, nextId := saved, savedId;
        return Err(NotDelivered);
      }
      result := Ok(());
    }

    method Verify(mobile: string, code: string, now: int) returns (result: Result<int, VerifyError>)
      modifies this`codes
      ensures (Contents(), result) == VerifyOtp(old(Contents()), mobile, code, now)
    {
      var latest := GetLatestUnusedOtp(mobile);
      if latest.None? || codes[latest.value].code != code {
        return Err(OtpInvalid);
      }
      var row := codes[latest.value];
      if row.expiresAt <= now {
        return Err(OtpExpired);
      }
      codes := codes[latest.value := row.(used := true)];
      if !ActiveUser(Contents(), mobile) {
        return Err(Unauthorized);
      }
      result := Ok(row.id);
    }
  }
}
