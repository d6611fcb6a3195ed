/** The one-time-passcode store behind password reset: issuing a code
    replaces every earlier code for that email, and redeeming one replaces the
    password and clears every code for that email. Mail delivery and the
    random source are parameters. */
module Otp {
  import opened Identity

  datatype OtpRecord = OtpRecord(email: string, code: int)

  /** The OTP collection, in insertion order. */
  type OtpStore = seq<OtpRecord>

  /** The codes stored for `email`, in insertion order. */
  function CodesFor(store: OtpStore, email: string): seq<int> {
    if |store| == 0 then []
    else (if store[0].email == email then [store[0].code] else []) + CodesFor(store[1..], email)
  }

  /** `deleteMany({ email })`: the records of other emails, order kept. */
  function Without(store: OtpStore, email: string): (r: OtpStore)
    ensures forall x :: x in r <==> x in store && x.email != email
  {
    if |store| == 0 then []
    else (if store[0].email != email then [store[0]] else []) + Without(store[1..], email)
  }

  lemma {:induction false} CodesForAppend(a: OtpStore, b: OtpStore, email: string)
    ensures CodesFor(a + b, email) == CodesFor(a, email) + CodesFor(b, email)
  {
    if |a| > 0 {
      assert (a + b)[1..] == a[1..] + b;
      CodesForAppend(a[1..], b, email);
    } else {
      assert a + b == b;
    }
  }

  /** Deleting the codes of one email clears that email and leaves every
      other email's codes as they were. */
  lemma {:induction false} CodesForWithout(store: OtpStore, email: string, other: string)
    ensures CodesFor(Without(store, email), email) == []
    ensures other != email ==> CodesFor(Without(store, email), other) == CodesFor(store, other)
  {
    if |store| > 0 {
      var head := if store[0].email != email then [store[0]] else [];
      CodesForWithout(store[1..], email, other);
      CodesForAppend(head, Without(store[1..], email), email);
      CodesForAppend(head, Without(store[1..], email), other);
      if head != [] {
        assert head[1..] == [];
      }
    }
  }

  /** The six-digit code drawn from `Math.random()`'s value `x` in [0, 1). */
  function CodeFromRandom(x: real): (code: int)
    requires 0.0 <= x < 1.0
    ensures 100000 <= code <= 999999
  {
    (100000.0 + x * 900000.0).Floor
  }

  datatype SendReply = SendReply(status: int, store: OtpStore)

  /** `sendOTP`: the store effect happens before, and regardless of, mail
      delivery; only the status reports whether the mail went out. Afterwards
      `email` has exactly the new code and every other email keeps its codes. */
  function SendOtp(store: OtpStore, email: string, code: int, delivered: bool): (r: SendReply)
    ensures r.status == (if delivered then 200 else 500)
    ensures CodesFor(r.store, email) == [code]
    ensures forall other :: other != email ==> CodesFor(r.store, other) == CodesFor(store, other)
  {
    var kept := Without(store, email);
    var issued := OtpRecord(email, code);
    CodesForWithout(store, email, email);
    CodesForAppend(kept, [issued], email);
    assert CodesFor([issued], email) == [code];
    assert forall other :: other != email ==> CodesFor(kept + [issued], other) == CodesFor(store, other) by {
      forall other | other != email ensures CodesFor(kept + [issued], other) == CodesFor(store, other) {
        CodesForWithout(store, email, other);
        CodesForAppend(kept, [issued], other);
        assert CodesFor([issued], other) == [];
      }
    }
    SendReply(if delivered then 200 else 500, kept + [issued])
  }

  datatype ResetReply = ResetReply(status: int, store: OtpStore, users: Users)

  /** `resetPassword`: without a record matching exactly (email, code) it is
      404 and nothing changes; with one but no such user it is 404 and the
      codes stay; otherwise the password becomes `digest` (the hash of the new
      password) and every code of that email is deleted, others untouched. */
  function ResetPassword(store: OtpStore, users: Users, email: string, code: int, digest: string): (r: ResetReply)
    ensures OtpRecord(email, code) !in store ==> r == ResetReply(404, store, users)
    ensures OtpRecord(email, code) in store && email !in users ==> r == ResetReply(404, store, users)
    ensures r.status == 200 <==> OtpRecord(email, code) in store && email in users
    ensures r.status == 200 ==>
      && r.users == users[email := users[email].(password := digest)]
      && CodesFor(r.store, email) == []
      && forall other :: other != email ==> CodesFor(r.store, other) == CodesFor(store, other)
  {
    if OtpRecord(email, code) !in store then ResetReply(404, store, users)
    else if email !in users then ResetReply(404, store, users)
    else
      var kept := Without(store, email);
      CodesForWithout(store, email, email);
      assert forall other :: other != email ==> CodesFor(kept, other) == CodesFor(store, other) by {
        forall other | other != email ensures CodesFor(kept, other) == CodesFor(store, other) {
          CodesForWithout(store, email, other);
        }
      }
      ResetReply(200, kept, users[email := users[email].(password := digest)])
  }

  lemma {:induction false} InStoreIffCode(store: OtpStore, email: string, code: int)
    ensures OtpRecord(email, code) in store <==> code in CodesFor(store, email)
  {
    if |store| > 0 {
      InStoreIffCode(store[1..], email, code);
      assert store == [store[0]] + store[1..];
    }
  }

  /** Single latest wins: after a second code is issued for the same email,
      the first code no longer resets the password, and the second one does
      when the user exists. */
  lemma SupersededCodeFails(store: OtpStore, users: Users, email: string,
                            first: int, second: int, digest: string, d1: bool, d2: bool)
    requires first != second
    ensures var s := SendOtp(SendOtp(store, email, first, d1).store, email, second, d2).store;
      && ResetPassword(s, users, email, first, digest).status == 404
      && (email in users ==> ResetPassword(s, users, email, second, digest).status == 200)
  {
    var s := SendOtp(SendOtp(store, email, first, d1).store, email, second, d2).store;
    InStoreIffCode(s, email, first);
    InStoreIffCode(s, email, second);
  }
}
