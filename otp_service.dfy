/**
 * The in-memory one-time-password store of lib/otp-service.ts.
 *
 * Records are kept in a map keyed by e-mail address. A record holds the
 * six-digit code, its expiry instant (milliseconds), the number of failed
 * attempts, the purpose it was issued for and the pending registration data.
 * The clock is a parameter (`now`, in milliseconds) and the random draw of
 * `crypto.randomInt` is a parameter of GenerateOtp.
 */
module OtpService {
  import opened Wrappers
  import opened JsStrings

  const OtpLifetimeMs: int := 10 * 60 * 1000
  const MaxFailedAttempts: nat := 3
  /** The period of the background sweep (`setInterval`). */
  const SweepIntervalMs: int := 5 * 60 * 1000
  /** `crypto.randomInt(OtpMin, OtpBound)` draws from [OtpMin, OtpBound). */
  const OtpMin: int := 100000
  const OtpBound: int := 999999

  const MsgNotFound := "OTP not found or expired"
  const MsgExpired := "OTP has expired"
  const MsgTooMany := "Too many failed attempts. Please request a new OTP"
  const MsgInvalid := "Invalid OTP"
  const MsgVerified := "OTP verified successfully"

  /** The pending registration payload (`userData`); an absent field reads as "". */
  datatype PendingUser = PendingUser(
    username: string, email: string, password: string,
    firstName: string, lastName: string, dob: string, avatar: string)

  /** One stored OTP (`OTPData`); `kind` is the `type` field. */
  datatype OtpRecord = OtpRecord(
    otp: string, email: string, expiresAt: int, attempts: nat,
    kind: string, userData: Option<PendingUser>)

  /** What `verifyOTP` returns. */
  datatype Verification = Verification(success: bool, message: string, userData: Option<PendingUser>)

  type Storage = map<string, OtpRecord>

  // ---------------------------------------------------------------------------
  // Code generation: a decimal rendering of the random draw.

  /** `n.toString()` for a non-negative integer. */
  function NatToString(n: nat): (s: string)
    ensures |s| >= 1 && AllDigits(s)
    decreases n
  {
    if n < 10 then [DigitChar(n)] else NatToString(n / 10) + [DigitChar(n % 10)]
  }

  lemma {:induction false} DigitsRoundTrip(n: nat)
    ensures DigitsValue(NatToString(n)) == n
    decreases n
  {
    var s := NatToString(n);
    if n >= 10 {
      DigitsRoundTrip(n / 10);
      assert s[..|s| - 1] == NatToString(n / 10);
    }
  }

  lemma {:induction false} NatToStringLength(n: nat, k: nat)
    requires k >= 1 && Pow10(k - 1) <= n < Pow10(k)
    ensures |NatToString(n)| == k
    decreases k
  {
    if k > 1 {
      NatToStringLength(n / 10, k - 1);
    }
  }

  /**
   * `generateOTP`: `draw` is the integer `crypto.randomInt(100000, 999999)`
   * returned, so it is below the exclusive bound. The code always has six
   * digits and denotes a number in [100000, 999998].
   */
  function GenerateOtp(draw: int): (code: string)
    requires OtpMin <= draw < OtpBound
    ensures |code| == 6 && AllDigits(code)
    ensures DigitsValue(code) == draw
    ensures 100000 <= DigitsValue(code) <= 999998
  {
    assert Pow10(5) == 100000 && Pow10(6) == 1000000;
    NatToStringLength(draw, 6);
    DigitsRoundTrip(draw);
    NatToString(draw)
  }

  // ---------------------------------------------------------------------------
  // The store's transitions as functions on the map.

  /** The record `storeOTP` writes. */
  function IssuedRecord(email: string, otp: string, kind: string, userData: Option<PendingUser>, now: int): OtpRecord {
    OtpRecord(otp, email, now + OtpLifetimeMs, 0, kind, userData)
  }

  /** `new Date() > expiresAt`: strictly later than the expiry instant. */
  predicate Expired(rec: OtpRecord, now: int) {
    now > rec.expiresAt
  }

  /** The entries `cleanupExpiredOTPs` keeps. */
  function Unexpired(m: Storage, now: int): Storage {
    map e | e in m && !Expired(m[e], now) :: m[e]
  }

  function StoreTransition(m: Storage, email: string, otp: string, kind: string,
                           userData: Option<PendingUser>, now: int): Storage {
    Unexpired(m[email := IssuedRecord(email, otp, kind, userData, now)], now)
  }

  /** The result of `verifyOTP` and the map it leaves behind, in its check order. */
  function VerifyTransition(m: Storage, email: string, input: string, now: int): (Verification, Storage) {
    if email !in m then
      (Verification(false, MsgNotFound, None), m)
    else
      var rec := m[email];
      if Expired(rec, now) then
        (Verification(false, MsgExpired, None), m - {email})
      else if rec.attempts >= MaxFailedAttempts then
        (Verification(false, MsgTooMany, None), m - {email})
      else if rec.otp != input then
        (Verification(false, MsgInvalid, None), m[email := rec.(attempts := rec.attempts + 1)])
      else
        (Verification(true, MsgVerified, rec.userData), m - {email})
  }

  /** The in-memory store (`otpStorage`). */
  class OtpStore {
    var storage: Storage

    constructor ()
      ensures storage == map[]
    {
      storage := map[];
    }

    /** `storeOTP`: overwrite the record for `email`, then sweep expired entries. */
    method StoreOtp(email: string, otp: string, kind: string, userData: Option<PendingUser>, now: int)
      modifies this
      ensures storage == StoreTransition(old(storage), email, otp, kind, userData, now)
      ensures email in storage && storage[email] == IssuedRecord(email, otp, kind, userData, now)
    {
      storage := storage[email := IssuedRecord(email, otp, kind, userData, now)];
      CleanupExpiredOtps(now);
    }

    /** `verifyOTP`. */
    method VerifyOtp(email: string, inputOtp: string, now: int) returns (r: Verification)
      modifies this
      ensures (r, storage) == VerifyTransition(old(storage), email, inputOtp, now)
    {
      if email !in storage {
        return Verification(false, MsgNotFound, None);
      }
      var stored := storage[email];
      if now > stored.expiresAt {
        storage := storage - {email};
        return Verification(false, MsgExpired, None);
      }
      if stored.attempts >= 3 {
        storage := storage - {email};
        return Verification(false, MsgTooMany, None);
      }
      if stored.otp != inputOtp {
        storage := storage[email := stored.(attempts := stored.attempts + 1)];
        return Verification(false, MsgInvalid, None);
      }
      var userData := stored.userData;
      storage := storage - {email};
      r := Verification(true, MsgVerified, userData);
    }

    /** `getOTPData`. */
    function GetOtpData(email: string): (r: Option<OtpRecord>)
      reads this
      ensures r.Some? <==> email in storage
      ensures r.Some? ==> r.value == storage[email]
    {
      if email in storage then Some(storage[email]) else None
    }

    /** `deleteOTP`. */
    method DeleteOtp(email: string)
      modifies this
      ensures storage == old(storage) - {email}
    {
      storage := storage - {email};
    }

    /**
     * `cleanupExpiredOTPs`, also what the periodic sweep runs: visit every
     * entry and delete those whose expiry has passed.
     */
    method CleanupExpiredOtps(now: int)
      modifies this
      ensures storage == Unexpired(old(storage), now)
    {
      ghost var start := storage;
      var pending := storage.Keys;
      while pending != {}
        invariant pending <= start.Keys
        invariant forall e :: e in storage <==> e in start && (e in pending || !Expired(start[e], now))
        invariant forall e :: e in storage ==> storage[e] == start[e]
        decreases pending
      {
        var e :| e in pending;
        if now > storage[e].expiresAt {
          storage := storage - {e};
        }
        pending := pending - {e};
      }
      assert storage.Keys == Unexpired(start, now).Keys;
    }
  }

  // ---------------------------------------------------------------------------
  // Properties of the transitions.

  /** `cleanupExpiredOTPs` removes exactly the expired entries and changes no other. */
  lemma CleanupRemovesExactlyExpired(m: Storage, now: int)
    ensures forall e :: e in Unexpired(m, now) <==> e in m && now <= m[e].expiresAt
    ensures forall e :: e in Unexpired(m, now) ==> Unexpired(m, now)[e] == m[e]
  {
  }

  /** A verification succeeds exactly when a record exists, is not past its
      expiry, has fewer than three failures and its code matches. */
  lemma VerifySucceedsIff(m: Storage, email: string, input: string, now: int)
    ensures VerifyTransition(m, email, input, now).0.success <==>
            email in m && now <= m[email].expiresAt && m[email].attempts < MaxFailedAttempts && m[email].otp == input
  {
  }

  /** Unknown e-mail: "OTP not found or expired", and nothing changes. */
  lemma VerifyUnknownEmail(m: Storage, email: string, input: string, now: int)
    requires email !in m
    ensures VerifyTransition(m, email, input, now) == (Verification(false, MsgNotFound, None), m)
  {
  }

  /** Past its expiry a record is deleted and rejected even when the code matches;
      expiry is checked before the attempt counter. */
  lemma VerifyExpired(m: Storage, email: string, input: string, now: int)
    requires email in m && now > m[email].expiresAt
    ensures VerifyTransition(m, email, input, now).0 == Verification(false, MsgExpired, None)
    ensures VerifyTransition(m, email, input, now).1 == m - {email}
  {
  }

  /** At exactly the expiry instant the record is still valid. */
  lemma VerifyAtExpiryInstant(m: Storage, email: string, now: int)
    requires email in m && now == m[email].expiresAt && m[email].attempts < MaxFailedAttempts
    ensures VerifyTransition(m, email, m[email].otp, now).0.success
  {
  }

  /** A wrong code counts one failure and changes nothing else. */
  lemma VerifyWrongCode(m: Storage, email: string, input: string, now: int)
    requires email in m && now <= m[email].expiresAt && m[email].attempts < MaxFailedAttempts
    requires m[email].otp != input
    ensures VerifyTransition(m, email, input, now).0 == Verification(false, MsgInvalid, None)
    ensures VerifyTransition(m, email, input, now).1 == m[email := m[email].(attempts := m[email].attempts + 1)]
  {
  }

  /** A correct code returns exactly the stored payload and consumes the record,
      so a second verification finds nothing. */
  lemma VerifySuccessConsumes(m: Storage, email: string, now: int, later: int)
    requires email in m && now <= m[email].expiresAt && m[email].attempts < MaxFailedAttempts
    ensures var (v, m') := VerifyTransition(m, email, m[email].otp, now);
      v == Verification(true, MsgVerified, m[email].userData) && email !in m'
      && VerifyTransition(m', email, m[email].otp, later).0 == Verification(false, MsgNotFound, None)
  {
  }

  /** The purpose stored with a record plays no part in its verification. */
  lemma VerifyIgnoresKind(m: Storage, email: string, input: string, now: int, k1: string, k2: string)
    requires email in m
    ensures VerifyTransition(m[email := m[email].(kind := k1)], email, input, now).0
         == VerifyTransition(m[email := m[email].(kind := k2)], email, input, now).0
  {
  }

  /** Verifying one e-mail leaves every other e-mail's record as it was. */
  lemma VerifyTouchesOnlyItsEmail(m: Storage, email: string, input: string, now: int, other: string)
    requires other != email
    ensures var m' := VerifyTransition(m, email, input, now).1;
      (other in m' <==> other in m) && (other in m ==> m'[other] == m[other])
  {
  }

  /** Storing overwrites the record for its e-mail with a fresh one (no failures,
      ten-minute expiry); other e-mails keep their records unless expired. */
  lemma StoreOverwrites(m: Storage, email: string, otp: string, kind: string,
                        userData: Option<PendingUser>, now: int, other: string)
    requires other != email
    ensures var m' := StoreTransition(m, email, otp, kind, userData, now);
      email in m' && m'[email].otp == otp && m'[email].attempts == 0
      && m'[email].expiresAt == now + 600000 && m'[email].userData == userData
      && (other in m' <==> other in m && now <= m[other].expiresAt)
      && (other in m' ==> m'[other] == m[other])
  {
  }

  /** After a re-issue only the latest code can succeed: the earlier code is
      rejected as a wrong guess, and the latest code is then still accepted. */
  lemma ReissueInvalidatesEarlierCode(m: Storage, email: string, first: string, second: string,
                                      kind: string, userData: Option<PendingUser>, t1: int, t2: int, t3: int)
    requires first != second
    requires t1 <= t2 <= t3 <= t2 + OtpLifetimeMs
    ensures var m1 := StoreTransition(m, email, first, kind, userData, t1);
      var m2 := StoreTransition(m1, email, second, kind, userData, t2);
      var (v, m3) := VerifyTransition(m2, email, first, t3);
      v == Verification(false, MsgInvalid, None)
      && VerifyTransition(m3, email, second, t3).0 == Verification(true, MsgVerified, userData)
  {
    var m1 := StoreTransition(m, email, first, kind, userData, t1);
    var m2 := StoreTransition(m1, email, second, kind, userData, t2);
    assert m2[email] == IssuedRecord(email, second, kind, userData, t2);
  }

  /** Wrong guesses applied one after another, each at its own instant. */
  function VerifyAll(m: Storage, email: string, guesses: seq<string>, times: seq<int>): Storage
    requires |guesses| == |times|
    decreases |guesses|
  {
    if |guesses| == 0 then m
    else VerifyAll(VerifyTransition(m, email, guesses[0], times[0]).1, email, guesses[1..], times[1..])
  }

  lemma {:induction false} WrongGuessesCount(m: Storage, email: string, rec: OtpRecord,
                                             guesses: seq<string>, times: seq<int>)
    requires email in m && m[email] == rec
    requires |guesses| == |times| && rec.attempts + |guesses| <= MaxFailedAttempts
    requires forall i :: 0 <= i < |guesses| ==> guesses[i] != rec.otp && times[i] <= rec.expiresAt
    ensures var m' := VerifyAll(m, email, guesses, times);
      email in m' && m'[email] == rec.(attempts := rec.attempts + |guesses|)
    decreases |guesses|
  {
    if |guesses| > 0 {
      var m1 := VerifyTransition(m, email, guesses[0], times[0]).1;
      var rec1 := rec.(attempts := rec.attempts + 1);
      assert m1[email] == rec1;
      WrongGuessesCount(m1, email, rec1, guesses[1..], times[1..]);
      assert rec1.(attempts := rec1.attempts + |guesses[1..]|) == rec.(attempts := rec.attempts + |guesses|);
    }
  }

  lemma LockoutFrom(m0: Storage, email: string, rec: OtpRecord,
                    guesses: seq<string>, times: seq<int>, last: string, lastAt: int)
    requires email in m0 && m0[email] == rec && rec.attempts == 0
    requires |guesses| == 3 && |times| == 3
    requires forall i :: 0 <= i < 3 ==> guesses[i] != rec.otp && times[i] <= rec.expiresAt
    requires lastAt <= rec.expiresAt
    ensures var m3 := VerifyAll(m0, email, guesses, times);
      email in m3 && m3[email].attempts == 3
      && VerifyTransition(m3, email, last, lastAt) == (Verification(false, MsgTooMany, None), m3 - {email})
  {
    WrongGuessesCount(m0, email, rec, guesses, times);
  }

  lemma StoredRecord(m: Storage, email: string, otp: string, kind: string,
                     userData: Option<PendingUser>, now: int)
    ensures var m0 := StoreTransition(m, email, otp, kind, userData, now);
      email in m0 && m0[email] == IssuedRecord(email, otp, kind, userData, now)
  {
  }

  /** Three wrong codes keep the record with three failures; the next
      verification deletes it and fails, even with the right code. */
  lemma LockoutAfterThreeWrongCodes(m: Storage, email: string, otp: string, kind: string,
                                    userData: Option<PendingUser>, issuedAt: int,
                                    guesses: seq<string>, times: seq<int>, last: string, lastAt: int)
    requires |guesses| == 3 && |times| == 3
    requires forall i :: 0 <= i < 3 ==> guesses[i] != otp && times[i] <= issuedAt + OtpLifetimeMs
    requires lastAt <= issuedAt + OtpLifetimeMs
    ensures var m3 := VerifyAll(StoreTransition(m, email, otp, kind, userData, issuedAt), email, guesses, times);
      email in m3 && m3[email].attempts == 3
      && VerifyTransition(m3, email, last, lastAt) == (Verification(false, MsgTooMany, None), m3 - {email})
  {
    StoredRecord(m, email, otp, kind, userData, issuedAt);
    LockoutFrom(StoreTransition(m, email, otp, kind, userData, issuedAt), email,
                IssuedRecord(email, otp, kind, userData, issuedAt), guesses, times, last, lastAt);
  }

  /** No stored record ever carries more than three failures. */
  ghost predicate AttemptsBounded(m: Storage) {
    forall e :: e in m ==> m[e].attempts <= MaxFailedAttempts
  }

  lemma AttemptsBoundedPreserved(m: Storage, email: string, code: string, kind: string,
                                 userData: Option<PendingUser>, input: string, now: int)
    requires AttemptsBounded(m)
    ensures AttemptsBounded(VerifyTransition(m, email, input, now).1)
    ensures AttemptsBounded(StoreTransition(m, email, code, kind, userData, now))
    ensures AttemptsBounded(Unexpired(m, now))
  {
  }

  // ---------------------------------------------------------------------------
  // What `getOTPData` reports across the store's life cycle.

  /** Right after a code is issued, the lookup returns the issued record. */
  lemma GetOtpDataAfterStore(store: OtpStore, m: Storage, email: string, otp: string, kind: string,
                             userData: Option<PendingUser>, now: int)
    requires store.storage == StoreTransition(m, email, otp, kind, userData, now)
    ensures store.GetOtpData(email) == Some(IssuedRecord(email, otp, kind, userData, now))
  {
    StoredRecord(m, email, otp, kind, userData, now);
  }

  /**
   * After a verification the lookup sees the record with one more failure
   * when the code was wrong, and nothing otherwise (not found, expired,
   * locked out or verified); other e-mails' records are reported as before.
   */
  lemma GetOtpDataAfterVerify(store: OtpStore, m: Storage, email: string, input: string, now: int)
    requires store.storage == VerifyTransition(m, email, input, now).1
    ensures var v := VerifyTransition(m, email, input, now).0;
      (email in m && v.message == MsgInvalid ==>
         store.GetOtpData(email) == Some(m[email].(attempts := m[email].attempts + 1)))
      && (v.message != MsgInvalid ==> store.GetOtpData(email).None?)
      && (forall e :: e != email ==> store.GetOtpData(e) == if e in m then Some(m[e]) else None)
  {
  }

  /** Deleting a record makes the lookup report nothing for that e-mail. */
  lemma GetOtpDataAfterDelete(store: OtpStore, m: Storage, email: string)
    requires store.storage == m - {email}
    ensures store.GetOtpData(email).None?
    ensures forall e :: e != email ==> store.GetOtpData(e) == if e in m then Some(m[e]) else None
  {
  }
}
