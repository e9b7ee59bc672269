/** Signed session cookies and sign-out (web/login.go).

`sign` stands for the keyed hash of a payload: some function to dot-free text.  A check
reads the clock twice, once for the expiry and once, no earlier, for the revocation. */
module Sessions {
  import opened Bands
  import opened Int64
  import opened Records
  import opened Decimal
  import Base64

  type Signer = string -> string

  ghost predicate DotFree(sign: Signer) {
    forall payload :: '.' !in sign(payload)
  }

  // ---- Instants as whole seconds -----------------------------------------------------------

  const SECOND := 1_000_000_000
  const UNIX_SECONDS := 62_135_596_800

  /** Instants whose seconds fit the 64-bit field that holds them. */
  predicate Representable(t: Time) {
    IsInt64(t / SECOND)
  }

  function ToUnix(t: Time): (s: int)
    ensures IsInt64(s)
  {
    Wrap64(t / SECOND - UNIX_SECONDS)
  }

  function FromUnixSeconds(s: int): Time {
    Wrap64(s + UNIX_SECONDS) * SECOND
  }

  function Truncated(t: Time): Time {
    t / SECOND * SECOND
  }

  /** The days of 1969 Gregorian years lie before 1970, and Unix seconds count from there. */
  lemma EpochIs(t: Time)
    requires Representable(t) && t / SECOND >= UNIX_SECONDS - TWO_63
    ensures UNIX_EPOCH == (1969 * 365 + 1969 / 4 - 1969 / 100 + 1969 / 400) * 86_400 * SECOND
    ensures ToUnix(t) == (t - UNIX_EPOCH) / 1_000_000_000
  {}

  lemma SecondsRoundTrip(t: Time)
    requires Representable(t)
    ensures FromUnixSeconds(ToUnix(t)) == Truncated(t)
    ensures Truncated(t) <= t < Truncated(t) + SECOND
  {
    WrapUndone(t / SECOND, UNIX_SECONDS);
  }

  // ---- Splitting on dots ---------------------------------------------------------------------

  function SplitDots(s: string): (parts: seq<string>)
    ensures |parts| >= 1
  {
    if |s| == 0 then [""]
    else
      var rest := SplitDots(s[1..]);
      if s[0] == '.' then [""] + rest else [[s[0]] + rest[0]] + rest[1..]
  }

  function JoinDots(parts: seq<string>): string
    requires |parts| >= 1
  {
    if |parts| == 1 then parts[0] else parts[0] + "." + JoinDots(parts[1..])
  }

  /** One more character in front: a dot opens a part, anything else extends the first. */
  lemma JoinCons(c: char, rest: seq<string>)
    requires |rest| >= 1 && forall p :: p in rest ==> '.' !in p
    ensures var parts := if c == '.' then [""] + rest else [[c] + rest[0]] + rest[1..];
      JoinDots(parts) == [c] + JoinDots(rest) && forall p :: p in parts ==> '.' !in p
  {
    assert rest[0] in rest;
    if c == '.' {
      assert ([""] + rest)[1..] == rest;
    } else {
      assert ([[c] + rest[0]] + rest[1..])[1..] == rest[1..];
    }
  }

  lemma {:induction false} JoinSplit(s: string)
    ensures JoinDots(SplitDots(s)) == s
    ensures forall p :: p in SplitDots(s) ==> '.' !in p
  {
    if |s| > 0 {
      JoinSplit(s[1..]);
      JoinCons(s[0], SplitDots(s[1..]));
      assert s == [s[0]] + s[1..];
    }
  }

  lemma {:induction false} SplitPlain(a: string)
    requires '.' !in a
    ensures SplitDots(a) == [a]
  {
    if |a| > 0 {
      SplitPlain(a[1..]);
      assert a == [a[0]] + a[1..];
      assert a[0] in a;
    }
  }

  lemma {:induction false} SplitCount(a: string, b: string)
    ensures |SplitDots(a + "." + b)| == |SplitDots(a)| + |SplitDots(b)|
  {
    if |a| == 0 {
      assert ("." + b)[1..] == b && a + "." + b == "." + b;
    } else {
      SplitCount(a[1..], b);
      assert (a + "." + b)[1..] == a[1..] + "." + b;
    }
  }

  lemma {:induction false} SplitFirst(a: string, b: string)
    requires '.' !in a
    ensures SplitDots(a + "." + b) == [a] + SplitDots(b)
  {
    if |a| == 0 {
      assert ("." + b)[1..] == b && a + "." + b == "." + b;
    } else {
      SplitFirst(a[1..], b);
      assert (a + "." + b)[1..] == a[1..] + "." + b;
      assert a == [a[0]] + a[1..];
      assert a[0] in a;
    }
  }

  lemma {:induction false} SplitInside(a: string)
    ensures '.' in a <==> |SplitDots(a)| >= 2
  {
    if |a| > 0 {
      SplitInside(a[1..]);
      assert a == [a[0]] + a[1..];
    }
  }

  function Dotted(a: string, b: string, c: string): string {
    a + "." + b + "." + c
  }

  /** The four fields come back exactly when the middle one has no dot of its own. */
  lemma SplitFour(a: string, b: string, c: string, d: string)
    requires '.' !in a && '.' !in c && '.' !in d
    ensures '.' !in b ==> SplitDots(Dotted(a, b, c) + "." + d) == [a, b, c, d]
    ensures '.' in b ==> |SplitDots(Dotted(a, b, c) + "." + d)| != 4
  {
    if '.' in b {
      SplitCount(Dotted(a, b, c), d);
      SplitCount(a + "." + b, c);
      SplitCount(a, b);
      SplitInside(b);
    } else {
      assert Dotted(a, b, c) + "." + d == a + "." + (b + "." + (c + "." + d));
      SplitFirst(a, b + "." + (c + "." + d));
      SplitFirst(b, c + "." + d);
      SplitFirst(c, d);
      SplitPlain(d);
    }
  }

  // ---- Sign-out --------------------------------------------------------------------------------

  predicate IsRevoked(dead: map<string, Time>, id: string, now: Time) {
    id in dead && now < dead[id]
  }

  /** The sign-outs kept by a sweep. */
  function Swept(dead: map<string, Time>, now: Time): map<string, Time> {
    map id | id in dead && now <= dead[id] :: dead[id]
  }

  function Revoke(dead: map<string, Time>, id: string, expiry: Time, now: Time): map<string, Time> {
    Swept(dead, now)[id := expiry]
  }

  class Revocations {
    var dead: map<string, Time>

    constructor ()
      ensures dead == map[]
    {
      dead := map[];
    }

    method Sweep(now: Time)
      modifies this
      ensures dead == Swept(old(dead), now)
    {
      var todo := dead.Keys;
      while todo != {}
        invariant todo <= old(dead).Keys
        invariant dead == map id | id in old(dead) && (id in todo || now <= old(dead)[id]) :: old(dead)[id]
      {
        var id :| id in todo;
        if now > dead[id] {
          dead := dead - {id};
        }
        todo := todo - {id};
      }
    }

    method SignOut(id: string, expiry: Time, now: Time)
      modifies this
      ensures dead == Revoke(old(dead), id, expiry, now)
    {
      Sweep(now);
      dead := dead[id := expiry];
    }
  }

  datatype Event = Event(id: string, expiry: Time, at: Time)

  function RevokeAll(events: seq<Event>): map<string, Time> {
    if |events| == 0 then map[]
    else
      var e := events[|events| - 1];
      Revoke(RevokeAll(events[..|events| - 1]), e.id, e.expiry, e.at)
  }

  /** The expiry recorded by the last sign-out of `id`, sweeps aside. */
  function LastRevoked(events: seq<Event>, id: string): Option<Time> {
    if |events| == 0 then None
    else if events[|events| - 1].id == id then Some(events[|events| - 1].expiry)
    else LastRevoked(events[..|events| - 1], id)
  }

  ghost predicate Clocked(events: seq<Event>, now: Time) {
    && (forall i, j :: 0 <= i < j < |events| ==> events[i].at <= events[j].at)
    && (forall i :: 0 <= i < |events| ==> events[i].at <= now)
  }

  /** Sweeping forgets nothing that matters: a session is revoked exactly while the expiry
      of its last sign-out lies ahead. */
  lemma {:induction false} RevokedIff(events: seq<Event>, id: string, now: Time)
    requires Clocked(events, now)
    ensures var last := LastRevoked(events, id);
      IsRevoked(RevokeAll(events), id, now) <==> last.Some? && now < last.value
  {
    if |events| > 0 {
      RevokedIff(events[..|events| - 1], id, now);
    }
  }

  /** Exactly which sign-outs are still held: those whose expiry had not passed at the instant
      of the last sign-out, and that last one itself.  What expires later stays until someone
      signs out again. */
  lemma {:induction false} HeldIff(events: seq<Event>, id: string)
    requires |events| > 0 && Clocked(events, events[|events| - 1].at)
    ensures var last, newest := LastRevoked(events, id), events[|events| - 1];
      && (id in RevokeAll(events) <==> last.Some? && (newest.id == id || newest.at <= last.value))
      && (id in RevokeAll(events) ==> RevokeAll(events)[id] == last.value)
  {
    if |events| > 1 {
      HeldIff(events[..|events| - 1], id);
    }
  }

  /** So the list holds entries that no check needs any more. */
  lemma ExpiredEntryHeld(id: string, expiry: Time, at: Time, now: Time)
    requires at <= expiry < now
    ensures var dead := RevokeAll([Event(id, expiry, at)]); id in dead && !IsRevoked(dead, id, now)
  {
    HeldIff([Event(id, expiry, at)], id);
  }

  // ---- The cookie ----------------------------------------------------------------------------------

  datatype Session = Session(subject: seq<Base64.Byte>, id: string, expiry: Time)

  function SignSession(sign: Signer, subject: seq<Base64.Byte>, id: string, expiry: Time): string {
    var payload := Dotted(Base64.Encode(subject), id, FormatInt(ToUnix(expiry)));
    payload + "." + sign(payload)
  }

  /** One clock reading for the expiry and one for the revocation. */
  datatype Reading = Reading(now: Time, later: Time)

  function VerifySession(sign: Signer, dead: map<string, Time>, value: string, clock: Reading): Option<Session> {
    var parts := SplitDots(value);
    if |parts| != 4 then None
    else if parts[3] != sign(Dotted(parts[0], parts[1], parts[2])) then None
    else
      var seconds := ParseInt(parts[2]);
      if seconds.None? then None
      else
        var expiry := FromUnixSeconds(seconds.value);
        if clock.now > expiry then None
        else if IsRevoked(dead, parts[1], clock.later) then None
        else
          var subject := Base64.Decode(parts[0]);
          if subject.None? || |subject.value| == 0 then None
          else Some(Session(subject.value, parts[1], expiry))
  }

  lemma FieldsAreDotFree(subject: seq<Base64.Byte>, seconds: int)
    ensures '.' !in Base64.Encode(subject) && '.' !in FormatInt(seconds)
  {
    Base64.EncodeInAlphabet(subject);
    FormatCharacters(seconds);
  }

  /** Verifying what was signed: the session comes back, its expiry cut to seconds, exactly
      when the subject is not empty, the id has no dot, and it is neither expired nor revoked. */
  lemma VerifySigned(sign: Signer, dead: map<string, Time>, subject: seq<Base64.Byte>, id: string, expiry: Time,
                     clock: Reading)
    requires DotFree(sign) && Representable(expiry)
    ensures VerifySession(sign, dead, SignSession(sign, subject, id, expiry), clock) ==
      if subject != [] && '.' !in id && clock.now <= Truncated(expiry) && !IsRevoked(dead, id, clock.later)
      then Some(Session(subject, id, Truncated(expiry))) else None
  {
    var a, c := Base64.Encode(subject), FormatInt(ToUnix(expiry));
    FieldsAreDotFree(subject, ToUnix(expiry));
    SplitFour(a, id, c, sign(Dotted(a, id, c)));
    FormatParse(ToUnix(expiry));
    SecondsRoundTrip(expiry);
    Base64.DecodeEncode(subject);
  }

  /** Only signed payloads are accepted: whatever verifies carries the signature of
      everything before it, and the session says what that payload says. */
  lemma AcceptsOnlySigned(sign: Signer, dead: map<string, Time>, value: string, clock: Reading)
    requires VerifySession(sign, dead, value, clock).Some?
    ensures var s := VerifySession(sign, dead, value, clock).value;
      && s.subject != [] && '.' !in s.id && clock.now <= s.expiry && !IsRevoked(dead, s.id, clock.later)
      && exists a, c ::
           && value == Dotted(a, s.id, c) + "." + sign(Dotted(a, s.id, c))
           && Base64.Decode(a) == Some(s.subject)
           && ParseInt(c).Some? && FromUnixSeconds(ParseInt(c).value) == s.expiry
  {
    var parts := SplitDots(value);
    var s := VerifySession(sign, dead, value, clock).value;
    JoinSplit(value);
    assert parts[1] in parts;
    JoinFour(parts);
    assert value == Dotted(parts[0], s.id, parts[2]) + "." + sign(Dotted(parts[0], s.id, parts[2]));
  }

  lemma JoinFour(parts: seq<string>)
    requires |parts| == 4
    ensures JoinDots(parts) == Dotted(parts[0], parts[1], parts[2]) + "." + parts[3]
  {
    assert JoinDots(parts[3..]) == parts[3];
    assert parts[2..][1..] == parts[3..] && parts[1..][1..] == parts[2..];
    assert JoinDots(parts[2..]) == parts[2] + "." + parts[3];
    assert JoinDots(parts[1..]) == parts[1] + "." + (parts[2] + "." + parts[3]);
    assert Dotted(parts[0], parts[1], parts[2]) + "." + parts[3]
        == parts[0] + "." + (parts[1] + "." + (parts[2] + "." + parts[3]));
  }

  /** After sign-out, and whatever was signed out since, the cookie is refused for good,
      except by a check whose two clock readings enclose the expiry itself. */
  lemma SignedOutIff(sign: Signer, events: seq<Event>, subject: seq<Base64.Byte>, id: string, expiry: Time, clock: Reading)
    requires DotFree(sign) && Representable(expiry) && subject != [] && '.' !in id
    requires Clocked(events, clock.later)
    requires LastRevoked(events, id) == Some(Truncated(expiry))
    ensures VerifySession(sign, RevokeAll(events), SignSession(sign, subject, id, expiry), clock).Some?
       <==> clock.now <= Truncated(expiry) <= clock.later
  {
    VerifySigned(sign, RevokeAll(events), subject, id, expiry, clock);
    RevokedIff(events, id, clock.later);
  }

  /** A concrete acceptance: signed out long ago, and checked at the very instant of expiry. */
  lemma AcceptedAtExpiry(sign: Signer, subject: seq<Base64.Byte>, id: string, expiry: Time, at: Time)
    requires DotFree(sign) && Representable(expiry) && subject != [] && '.' !in id && at <= Truncated(expiry)
    ensures var dead, now := RevokeAll([Event(id, Truncated(expiry), at)]), Truncated(expiry);
      VerifySession(sign, dead, SignSession(sign, subject, id, expiry), Reading(now, now)).Some?
  {
    var events := [Event(id, Truncated(expiry), at)];
    SignedOutIff(sign, events, subject, id, expiry, Reading(Truncated(expiry), Truncated(expiry)));
  }

  // ---- The request -----------------------------------------------------------------------------------

  /** Cookie i is checked at clock[i]. */
  function Check(sign: Signer, dead: map<string, Time>, cookies: seq<string>, clock: seq<Reading>, i: nat): Option<Session>
    requires |clock| == |cookies| && i < |cookies|
  {
    VerifySession(sign, dead, cookies[i], clock[i])
  }

  /** The first n cookies do not verify, and cookie n, if there is one, carries `found`. */
  ghost predicate LiveAt(sign: Signer, dead: map<string, Time>, cookies: seq<string>, clock: seq<Reading>,
                         found: Option<Session>, n: nat)
    requires |clock| == |cookies|
  {
    && n <= |cookies|
    && (forall i :: 0 <= i < n ==> Check(sign, dead, cookies, clock, i).None?)
    && (if n < |cookies| then found.Some? && found == Check(sign, dead, cookies, clock, n) else found.None?)
  }

  /** `found` is what the first verifying cookie carries, or None if none verifies. */
  ghost predicate FirstLive(sign: Signer, dead: map<string, Time>, cookies: seq<string>, clock: seq<Reading>,
                            found: Option<Session>)
    requires |clock| == |cookies|
  {
    exists n: nat :: LiveAt(sign, dead, cookies, clock, found, n)
  }

  method SessionFrom(sign: Signer, dead: map<string, Time>, cookies: seq<string>, clock: seq<Reading>)
    returns (found: Option<Session>)
    requires |clock| == |cookies|
    ensures FirstLive(sign, dead, cookies, clock, found)
  {
    for i := 0 to |cookies|
      invariant forall j :: 0 <= j < i ==> Check(sign, dead, cookies, clock, j).None?
    {
      found := VerifySession(sign, dead, cookies[i], clock[i]);
      if found.Some? {
        assert LiveAt(sign, dead, cookies, clock, found, i);
        return;
      }
    }
    found := None;
    assert LiveAt(sign, dead, cookies, clock, found, |cookies|);
  }

  /** A live session is found behind any number of cookies that do not verify. */
  lemma FoundBehindOthers(sign: Signer, dead: map<string, Time>, before: seq<string>, after: seq<string>,
                          subject: seq<Base64.Byte>, id: string, expiry: Time, clock: seq<Reading>, found: Option<Session>)
    requires DotFree(sign) && Representable(expiry) && |clock| == |before| + 1 + |after|
    requires forall i :: 0 <= i < |before| ==> VerifySession(sign, dead, before[i], clock[i]).None?
    requires subject != [] && '.' !in id && clock[|before|].now <= Truncated(expiry)
    requires !IsRevoked(dead, id, clock[|before|].later)
    ensures FirstLive(sign, dead, before + [SignSession(sign, subject, id, expiry)] + after, clock, found)
       <==> found == Some(Session(subject, id, Truncated(expiry)))
  {
    var cookies := before + [SignSession(sign, subject, id, expiry)] + after;
    VerifySigned(sign, dead, subject, id, expiry, clock[|before|]);
    assert Check(sign, dead, cookies, clock, |before|) == Some(Session(subject, id, Truncated(expiry)));
    forall i | 0 <= i < |before| ensures Check(sign, dead, cookies, clock, i).None? {
      assert cookies[i] == before[i];
    }
    assert found == Some(Session(subject, id, Truncated(expiry))) ==> LiveAt(sign, dead, cookies, clock, found, |before|);
  }
}
