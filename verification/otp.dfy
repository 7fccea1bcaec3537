/** The one-time-password store (`Backend/OTP_verification.py`): a map from
    email address to the pending OTP and its expiry instant, with `set`,
    `verify` and `clear`.

    The class-level dictionary becomes a map value threaded through the
    operations, and `datetime.now()` becomes an explicit `now` parameter in
    microseconds, the resolution of Python's `datetime`. */
module Otp {

  /** A pending OTP and the instant after which it is no longer accepted. */
  datatype Entry = Entry(otp: string, expiry: int)

  type Store = map<string, Entry>

  const MicrosPerMinute: int := 60_000_000

  /** `set_otp`'s default `expiry_minutes`. */
  const DefaultExpiryMinutes: int := 2

  /** `set_otp`: binds `email` to `otp`, valid until `expiryMinutes` after
      `now`, replacing any pending OTP for that email. */
  function SetOtp(store: Store, email: string, otp: string, now: int,
                  expiryMinutes: int := DefaultExpiryMinutes): (store': Store)
    ensures store'.Keys == store.Keys + {email}
    ensures store'[email] == Entry(otp, now + expiryMinutes * MicrosPerMinute)
    ensures forall e :: e in store && e != email ==> store'[e] == store[e]
  {
    store[email := Entry(otp, now + expiryMinutes * MicrosPerMinute)]
  }

  /** `clear`: forgets the pending OTP of `email`, if any. */
  function Clear(store: Store, email: string): (store': Store)
    ensures store'.Keys == store.Keys - {email}
    ensures forall e :: e in store' ==> store'[e] == store[e]
  {
    store - {email}
  }

  /** The four answers of `verify_otp`. */
  datatype Status = NotFound | Expired | Verified | Invalid {
    /** The string `verify_otp` returns for this answer. */
    function Message(): string {
      match this
      case NotFound => "OTP not found"
      case Expired => "OTP has expired!"
      case Verified => "OTP verified"
      case Invalid => "Invalid OTP!"
    }
  }

  /** The answer of `verify_otp` and the store it leaves behind. */
  datatype Verdict = Verdict(status: Status, store: Store)

  /** `verify_otp`: checks `entered` against the pending OTP of `email` at
      time `now`. */
  function VerifyOtp(store: Store, email: string, entered: string, now: int): (v: Verdict)
    ensures v.status == NotFound <==> email !in store
    ensures v.status == Expired <==> email in store && now > store[email].expiry
    ensures v.status == Verified <==> email in store && now <= store[email].expiry && store[email].otp == entered
    ensures v.status == Invalid <==> email in store && now <= store[email].expiry && store[email].otp != entered
    ensures v.status in {NotFound, Invalid} ==> v.store == store
    ensures v.status in {Expired, Verified} ==> v.store == Clear(store, email)
  {
    if email !in store then Verdict(NotFound, store)
    else
      var entry := store[email];
      if now > entry.expiry then Verdict(Expired, Clear(store, email))
      else if entry.otp == entered then Verdict(Verified, Clear(store, email))
      else Verdict(Invalid, store)
  }

  /** The four answers are told apart by their strings, so comparing the
      string with "OTP verified" is comparing the answer with `Verified`. */
  lemma MessagesDistinct(a: Status, b: Status)
    ensures a.Message() == b.Message() <==> a == b
  {
  }

  /** Verification never touches another email's entry. */
  lemma VerifyIsLocal(store: Store, email: string, entered: string, now: int, other: string)
    requires other != email
    ensures var s' := VerifyOtp(store, email, entered, now).store;
            (other in s' <==> other in store) && (other in store ==> s'[other] == store[other])
  {
  }

  /** An OTP is accepted once: after a successful verification the next
      attempt finds nothing, whatever is entered and whenever. */
  lemma OneShot(store: Store, email: string, entered: string, now: int, again: string, later: int)
    requires VerifyOtp(store, email, entered, now).status == Verified
    ensures VerifyOtp(VerifyOtp(store, email, entered, now).store, email, again, later).status == NotFound
  {
  }

  /** A wrong guess leaves the OTP pending, so the right one is still
      accepted afterwards while unexpired. */
  lemma RetryAfterInvalid(store: Store, email: string, wrong: string, now: int, later: int)
    requires VerifyOtp(store, email, wrong, now).status == Invalid
    requires later <= store[email].expiry
    ensures VerifyOtp(VerifyOtp(store, email, wrong, now).store, email, store[email].otp, later).status == Verified
  {
  }

  /** A freshly set OTP is accepted up to and including the instant two
      minutes later, and is reported expired one microsecond after, even
      when the right code is entered. */
  lemma ExpiryIsStrict(store: Store, email: string, otp: string, now: int)
    ensures VerifyOtp(SetOtp(store, email, otp, now), email, otp, now + 2 * MicrosPerMinute).status == Verified
    ensures VerifyOtp(SetOtp(store, email, otp, now), email, otp, now + 2 * MicrosPerMinute + 1).status == Expired
  {
  }

  /** Setting an OTP twice keeps only the second one. */
  lemma SetOverwrites(store: Store, email: string, first: string, second: string, t1: int, t2: int)
    requires first != second
    ensures var s := SetOtp(SetOtp(store, email, first, t1), email, second, t2);
            && VerifyOtp(s, email, first, t2).status == Invalid
            && VerifyOtp(s, email, second, t2).status == Verified
  {
  }

  /** Clearing is idempotent and a no-op for an email with nothing pending. */
  lemma ClearIdempotent(store: Store, email: string)
    ensures Clear(Clear(store, email), email) == Clear(store, email)
    ensures email !in store ==> Clear(store, email) == store
  {
  }
}
