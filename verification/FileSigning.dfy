/** Signed file URLs: the message that is hashed, and who a signature lets in until when. */
module FileSigning {
  import opened Wrappers
  import Text

  datatype Action = Read | Write

  /**
   What the model is given: SHA-256 in hexadecimal, and how a finite number is printed. Numbers are
   counted in a unit fine enough for all of them to be whole, `second` of it to the second.
   */
  datatype Host = Host(sha256: string -> string, show: int -> string, second: int)

  function ActionName(a: Action): string {
    if a.Read? then "read" else "write"
  }

  predicate LowerHex(c: char) {
    '0' <= c <= '9' || 'a' <= c <= 'f'
  }

  predicate IsHash(h: string) {
    |h| == 64 && forall i :: 0 <= i < |h| ==> LowerHex(h[i])
  }

  ghost predicate Sound(host: Host) {
    && (forall s :: IsHash(host.sha256(s)))
    && (forall x, y :: host.show(x) == host.show(y) ==> x == y)
    && (forall x :: Text.Free(host.show(x), '/'))
    && host.second > 0
  }

  /** No other text has the hash of this one. */
  ghost predicate Sole(host: Host, message: string) {
    forall s :: host.sha256(s) == host.sha256(message) ==> s == message
  }

  function Message(host: Host, uid: string, action: Action, secret: string, expires: int): string {
    uid + "/" + ActionName(action) + "/" + secret + "/" + host.show(expires)
  }

  function Signature(host: Host, uid: string, action: Action, secret: string, expires: int): string {
    host.sha256(Message(host, uid, action, secret, expires))
  }

  /** What is hashed: uid, action, secret and expiry, with slashes between them. */
  lemma SignedText(host: Host, uid: string, secret: string, expires: int)
    ensures Signature(host, uid, Read, secret, expires) == host.sha256(uid + "/" + "read" + "/" + secret + "/" + host.show(expires))
    ensures Signature(host, uid, Write, secret, expires) == host.sha256(uid + "/" + "write" + "/" + secret + "/" + host.show(expires))
  {
  }

  // ----- the message -----

  /** The last slash of a text is where it was put, if what follows has none. */
  lemma LastSlash(s: string, t: string, u: string, v: string)
    requires Text.Free(t, '/') && Text.Free(v, '/') && s + "/" + t == u + "/" + v
    ensures s == u && t == v
  {
    var left, right := s + "/" + t, u + "/" + v;
    assert left[|s|] == '/' && forall k :: |s| < k < |left| ==> left[k] == t[k - |s| - 1];
    assert right[|u|] == '/' && forall k :: |u| < k < |right| ==> right[k] == v[k - |u| - 1];
    assert |s| == |u|;
    assert s == left[..|s|] && u == right[..|u|];
    assert t == left[|s| + 1..] && v == right[|u| + 1..];
  }

  lemma SameTail(s: string, u: string, tail: string)
    requires s + tail == u + tail
    ensures s == u
  {
    assert s == (s + tail)[..|s + tail| - |tail|];
    assert u == (u + tail)[..|u + tail| - |tail|];
  }

  /** One secret's messages say whose they are, for what and until when, whatever slashes the uid or the secret holds. */
  lemma MessageDetermines(host: Host, secret: string, u: string, a: Action, x: int, v: string, b: Action, y: int)
    requires Sound(host)
    requires Message(host, u, a, secret, x) == Message(host, v, b, secret, y)
    ensures u == v && a == b && x == y
  {
    LastSlash(u + "/" + ActionName(a) + "/" + secret, host.show(x), v + "/" + ActionName(b) + "/" + secret, host.show(y));
    var tail := "/" + secret;
    assert u + "/" + ActionName(a) + "/" + secret == u + "/" + ActionName(a) + tail;
    assert v + "/" + ActionName(b) + "/" + secret == v + "/" + ActionName(b) + tail;
    SameTail(u + "/" + ActionName(a), v + "/" + ActionName(b), tail);
    LastSlash(u, ActionName(a), v, ActionName(b));
    assert ActionName(a)[0] == ActionName(b)[0];
  }

  /** Across secrets the message is unambiguous too when neither secret holds a slash. */
  lemma SecretsKeptApart(host: Host, u: string, a: Action, s: string, x: int, v: string, b: Action, t: string, y: int)
    requires Sound(host) && Text.Free(s, '/') && Text.Free(t, '/')
    requires Message(host, u, a, s, x) == Message(host, v, b, t, y)
    ensures u == v && a == b && s == t && x == y
  {
    LastSlash(u + "/" + ActionName(a) + "/" + s, host.show(x), v + "/" + ActionName(b) + "/" + t, host.show(y));
    LastSlash(u + "/" + ActionName(a), s, v + "/" + ActionName(b), t);
    LastSlash(u, ActionName(a), v, ActionName(b));
    assert ActionName(a)[0] == ActionName(b)[0];
  }

  /** A secret with a slash in it can pose as part of another's uid, */
  lemma SlashedSecretsCollide(host: Host, u: string, t: string, x: int)
    ensures Message(host, u, Read, "read/" + t, x) == Message(host, u + "/read", Read, t, x)
  {
    calc {
      Message(host, u, Read, "read/" + t, x);
      u + "/" + "read" + "/" + ("read/" + t) + "/" + host.show(x);
      { assert "read/" == "read" + "/"; }
      u + "/" + "read" + "/" + "read" + "/" + t + "/" + host.show(x);
      { assert "/read" == "/" + "read"; }
      u + "/read" + "/" + "read" + "/" + t + "/" + host.show(x);
    }
  }

  /** Secret `s` ends with an action, a slash and secret `t`, the action filling a whole component. */
  ghost predicate EndsBehindAction(s: string, t: string) {
    exists z: string, b: Action :: (z == "" || z[|z| - 1] == '/') && s == z + (ActionName(b) + "/" + t)
  }

  ghost predicate ShareMessage(host: Host, s: string, t: string) {
    exists u, a, x, v, b, y :: Message(host, u, a, s, x) == Message(host, v, b, t, y)
  }

  lemma {:induction false} LastComponent(s: string) returns (front: string, last: string)
    requires !Text.Free(s, '/')
    ensures s == front + "/" + last && Text.Free(last, '/')
  {
    var n := |s| - 1;
    if s[n] == '/' {
      front, last := s[..n], "";
    } else {
      assert forall i :: 0 <= i < n ==> s[..n][i] == s[i];
      front, last := LastComponent(s[..n]);
      last := last + [s[n]];
      assert s == s[..n] + [s[n]];
    }
  }

  /** A text that ends in `/`, a component and another `/` reads so from the end. */
  lemma BehindComponent(head: string, x: string, v: string, name: string) returns (z: string)
    requires x != "" && head + "/" + x == v + "/" + name + "/" && Text.Free(name, '/')
    ensures (z == "" || z[|z| - 1] == '/') && x == z + (name + "/")
  {
    var n, whole := |x| - 1, head + "/" + x;
    var y := x[..n];
    assert whole[|whole| - 1] == x[n] && whole[|whole| - 1] == '/';
    assert x == y + "/";
    Text.Regroup(head + "/", y, "/");
    SameTail(head + "/" + y, v + "/" + name, "/");
    if Text.Free(y, '/') {
      LastSlash(head, y, v, name);
      z := "";
    } else {
      var front, last := LastComponent(y);
      Text.Regroup(head + "/", front + "/", last);
      Text.Regroup(head + "/", front, "/");
      LastSlash(head + "/" + front, last, v, name);
      z := front + "/";
      Text.Regroup(z, name, "/");
    }
  }

  lemma LongerTail(p: string, s: string, q: string, t: string) returns (x: string)
    requires |s| > |t| && p + s == q + t
    ensures s == x + t && x != "" && p + x == q
  {
    var n, whole := |s| - |t|, p + s;
    x := s[..n];
    assert whole[|whole| - |t|..] == t && whole[|whole| - |t|..] == s[n..];
    assert s == x + t;
    Text.Regroup(p, x, t);
    SameTail(p + x, q, t);
  }

  lemma LongerSecret(u: string, a: Action, s: string, v: string, b: Action, t: string)
    requires |s| > |t| && u + "/" + ActionName(a) + "/" + s == v + "/" + ActionName(b) + "/" + t
    ensures EndsBehindAction(s, t)
  {
    var head, name := u + "/" + ActionName(a), ActionName(b);
    var x := LongerTail(head + "/", s, v + "/" + name + "/", t);
    var z := BehindComponent(head, x, v, name);
    Text.Regroup(z, name + "/", t);
    Text.Regroup(name, "/", t);
  }

  /** A text that ends in a slash. */
  lemma EndsInSlash(s: string) returns (v: string)
    requires s != "" && s[|s| - 1] == '/'
    ensures s == v + "/"
  {
    v := s[..|s| - 1];
  }

  lemma BehindActionCollides(host: Host, u: string, x: int, s: string, t: string)
    requires EndsBehindAction(s, t)
    ensures ShareMessage(host, s, t)
  {
    var z: string, b: Action :| (z == "" || z[|z| - 1] == '/') && s == z + (ActionName(b) + "/" + t);
    var front, name := u + "/" + ActionName(Read) + "/", ActionName(b);
    var v := EndsInSlash(front + z);
    hide ActionName;
    Text.Regroup(front, z, name + "/" + t);
    Text.Regroup(v + "/", name + "/", t);
    Text.Regroup(name, "/", t);
    Text.Regroup(v + "/", name, "/");
    assert front + s == v + "/" + name + "/" + t;
    assert Message(host, u, Read, s, x) == Message(host, v, b, t, x);
  }

  /** and does exactly in this way: two secrets share some message iff they are equal, or one ends behind an action with the other. */
  lemma SecretsShareIff(host: Host, s: string, t: string)
    requires Sound(host)
    ensures ShareMessage(host, s, t) <==> s == t || EndsBehindAction(s, t) || EndsBehindAction(t, s)
  {
    if ShareMessage(host, s, t) {
      var u, a, x, v, b, y :| Message(host, u, a, s, x) == Message(host, v, b, t, y);
      SharedMeansBehind(host, u, a, s, x, v, b, t, y);
    } else {
      if EndsBehindAction(s, t) {
        BehindActionCollides(host, "", 0, s, t);
      }
      if EndsBehindAction(t, s) {
        BehindActionCollides(host, "", 0, t, s);
        ShareIsSymmetric(host, t, s);
      }
      assert s == t ==> Message(host, "", Read, s, 0) == Message(host, "", Read, t, 0);
    }
  }

  lemma ShareIsSymmetric(host: Host, s: string, t: string)
    requires ShareMessage(host, s, t)
    ensures ShareMessage(host, t, s)
  {
    var u, a, x, v, b, y :| Message(host, u, a, s, x) == Message(host, v, b, t, y);
    assert Message(host, v, b, t, y) == Message(host, u, a, s, x);
  }

  lemma SharedMeansBehind(host: Host, u: string, a: Action, s: string, x: int, v: string, b: Action, t: string, y: int)
    requires Sound(host) && Message(host, u, a, s, x) == Message(host, v, b, t, y)
    ensures s == t || EndsBehindAction(s, t) || EndsBehindAction(t, s)
  {
    hide EndsBehindAction;
    var left, right := u + "/" + ActionName(a) + "/" + s, v + "/" + ActionName(b) + "/" + t;
    LastSlash(left, host.show(x), right, host.show(y));
    if |s| > |t| {
      LongerSecret(u, a, s, v, b, t);
    } else if |t| > |s| {
      LongerSecret(v, b, t, u, a, s);
    } else {
      assert s == left[|left| - |s|..] == right[|right| - |t|..] == t;
    }
  }

  // ----- comparing signatures -----

  function HexValue(c: char): (v: Option<nat>)
    ensures v.Some? ==> v.value < 16
  {
    if '0' <= c <= '9' then Some(c as nat - '0' as nat)
    else if 'a' <= c <= 'f' then Some(10 + c as nat - 'a' as nat)
    else if 'A' <= c <= 'F' then Some(10 + c as nat - 'A' as nat)
    else None
  }

  /** The bytes of a hexadecimal text, up to the first pair that is not two digits. */
  function HexBytes(s: string): seq<nat> {
    if |s| < 2 || HexValue(s[0]).None? || HexValue(s[1]).None? then []
    else [16 * HexValue(s[0]).value + HexValue(s[1]).value] + HexBytes(s[2..])
  }

  predicate SignaturesEqual(provided: string, expected: string) {
    && |provided| == |expected|
    && |HexBytes(provided)| == |HexBytes(expected)|
    && HexBytes(provided) == HexBytes(expected)
  }

  /** Against a hash, comparing the decoded bytes is comparing the texts without regard to case. */
  lemma {:induction false} EqualUpToCase(provided: string, expected: string)
    requires |expected| % 2 == 0 && forall i :: 0 <= i < |expected| ==> LowerHex(expected[i])
    ensures SignaturesEqual(provided, expected) <==> Text.Lower(provided) == expected
  {
    if |provided| == |expected| && expected != "" {
      EqualUpToCase(provided[2..], expected[2..]);
      SameDigit(provided[0], expected[0]);
      SameDigit(provided[1], expected[1]);
      LowerPair(provided, expected);
      BytesPair(provided, expected);
    }
  }

  lemma LowerPair(s: string, t: string)
    requires |s| == |t| >= 2
    ensures Text.Lower(s) == t <==>
      Text.LowerChar(s[0]) == t[0] && Text.LowerChar(s[1]) == t[1] && Text.Lower(s[2..]) == t[2..]
  {
    assert Text.Lower(s) == [Text.LowerChar(s[0]), Text.LowerChar(s[1])] + Text.Lower(s[2..]);
    assert t == [t[0], t[1]] + t[2..];
  }

  lemma BytesPair(s: string, t: string)
    requires |s| == |t| >= 2 && HexValue(t[0]).Some? && HexValue(t[1]).Some?
    ensures HexBytes(s) == HexBytes(t) <==>
      HexValue(s[0]) == HexValue(t[0]) && HexValue(s[1]) == HexValue(t[1]) && HexBytes(s[2..]) == HexBytes(t[2..])
  {
    var rest := HexBytes(t)[1..];
    assert rest == HexBytes(t[2..]);
    if HexValue(s[0]).Some? && HexValue(s[1]).Some? {
      assert HexBytes(s)[1..] == HexBytes(s[2..]);
      assert HexBytes(s) == HexBytes(t) <==> HexBytes(s)[0] == HexBytes(t)[0] && HexBytes(s)[1..] == rest;
    }
  }

  lemma SameDigit(c: char, d: char)
    requires LowerHex(d)
    ensures HexValue(d).Some?
    ensures HexValue(c) == HexValue(d) <==> Text.LowerChar(c) == d
  {
  }

  // ----- signing and verifying -----

  /** `uid` and `signature` are "" when the query has no such text, `expires` is none unless it reads as a finite number. */
  datatype Query = Query(uid: string, signature: string, expires: Option<int>)

  datatype Verdict = Accepted | NoUid | NoSignature | NoExpires | Expired | Mismatch

  /** The checks in order; a write signature satisfies any action. */
  function Verify(host: Host, query: Query, action: Action, secret: string, now: int): Verdict {
    if query.uid == "" then NoUid
    else if query.signature == "" then NoSignature
    else if query.expires.None? then NoExpires
    else if query.expires.value < now then Expired
    else if SignaturesEqual(query.signature, Signature(host, query.uid, Write, secret, query.expires.value)) then Accepted
    else if SignaturesEqual(query.signature, Signature(host, query.uid, action, secret, query.expires.value)) then Accepted
    else Mismatch
  }

  /** Why a query is turned away: the first thing missing, then expiry, and otherwise a signature that fits neither action. */
  lemma VerdictReasons(host: Host, query: Query, action: Action, secret: string, now: int)
    ensures var verdict := Verify(host, query, action, secret, now);
      && (verdict == NoUid <==> query.uid == "")
      && (verdict == NoSignature <==> query.uid != "" && query.signature == "")
      && (verdict == NoExpires <==> query.uid != "" && query.signature != "" && query.expires.None?)
      && (verdict == Expired <==> query.uid != "" && query.signature != "" && query.expires.Some? && query.expires.value < now)
      && (verdict in [Accepted, Mismatch] <==>
          query.uid != "" && query.signature != "" && query.expires.Some? && now <= query.expires.value)
  {
  }

  /** A file's signed form: one signature per action, for the same lifetime. */
  datatype SignedFile = SignedFile(uid: string, expires: int, signature: string, writeSignature: string)

  /** In seconds. */
  const DEFAULT_TTL := 9_999_999_999_999

  /** The first whole second that is not before `x`. */
  function Ceiling(host: Host, x: int): (r: int)
    requires host.second > 0
    ensures x <= r < x + host.second
  {
    -((-x) / host.second) * host.second
  }

  function SignFile(host: Host, uid: string, secret: string, now: int, ttl: Option<int>): SignedFile
    requires host.second > 0
  {
    var expires := Ceiling(host, now) + ttl.GetOr(DEFAULT_TTL * host.second);
    SignedFile(uid, expires, Signature(host, uid, Read, secret, expires), Signature(host, uid, Write, secret, expires))
  }

  lemma SignaturesMatchIff(host: Host, secret: string, u: string, a: Action, x: int, v: string, b: Action, y: int)
    requires Sound(host) && Sole(host, Message(host, u, a, secret, x))
    ensures SignaturesEqual(Signature(host, u, a, secret, x), Signature(host, v, b, secret, y)) <==> u == v && a == b && x == y
  {
    var s, t := Signature(host, u, a, secret, x), Signature(host, v, b, secret, y);
    EqualUpToCase(s, t);
    assert Text.Lower(s) == s;
    if s == t {
      MessageDetermines(host, secret, u, a, x, v, b, y);
    }
  }

  /**
   A signature made for one file, action and expiry is accepted for that file and expiry only, no
   later than it, and for another action only if it was made for writing.
   */
  lemma SignatureGrants(
    host: Host, secret: string, uid: string, made: Action, expires: int,
    presented: string, deadline: Option<int>, asked: Action, now: int)
    requires Sound(host) && Sole(host, Message(host, uid, made, secret, expires))
    ensures Verify(host, Query(presented, Signature(host, uid, made, secret, expires), deadline), asked, secret, now) == Accepted <==>
      presented == uid && uid != "" && deadline == Some(expires) && now <= expires && (made.Write? || asked.Read?)
  {
    if deadline.Some? {
      SignaturesMatchIff(host, secret, uid, made, expires, presented, Write, deadline.value);
      SignaturesMatchIff(host, secret, uid, made, expires, presented, asked, deadline.value);
    }
  }

  /** Whatever is accepted is, up to letter case, a signature of this file and expiry for writing or for the action asked. */
  lemma AcceptedIsSigned(host: Host, query: Query, action: Action, secret: string, now: int)
    requires Sound(host)
    ensures Verify(host, query, action, secret, now) == Accepted <==>
      && query.uid != "" && query.expires.Some? && now <= query.expires.value
      && var lower := Text.Lower(query.signature);
      (lower == Signature(host, query.uid, Write, secret, query.expires.value)
       || lower == Signature(host, query.uid, action, secret, query.expires.value))
  {
    if query.expires.Some? {
      var x := query.expires.value;
      EqualUpToCase(query.signature, Signature(host, query.uid, Write, secret, x));
      EqualUpToCase(query.signature, Signature(host, query.uid, action, secret, x));
    }
  }

  /** A signed file is good from the moment it is made for the whole of its lifetime, and for less than a second more. */
  lemma SignedFileLifetime(host: Host, uid: string, secret: string, made: int, ttl: Option<int>, now: int, asked: Action)
    requires Sound(host) && uid != ""
    requires var x := SignFile(host, uid, secret, made, ttl).expires;
      Sole(host, Message(host, uid, Read, secret, x)) && Sole(host, Message(host, uid, Write, secret, x))
    ensures var f := SignFile(host, uid, secret, made, ttl);
      var lifetime := if ttl.Some? then ttl.value else 9_999_999_999_999 * host.second;
      && f.uid == uid
      && (Verify(host, Query(f.uid, f.signature, Some(f.expires)), asked, secret, now) == Accepted <==> asked.Read? && now <= f.expires)
      && (Verify(host, Query(f.uid, f.writeSignature, Some(f.expires)), asked, secret, now) == Accepted <==> now <= f.expires)
      && made + lifetime <= f.expires < made + lifetime + host.second
  {
    var f := SignFile(host, uid, secret, made, ttl);
    SignatureGrants(host, secret, uid, Read, f.expires, f.uid, Some(f.expires), asked, now);
    SignatureGrants(host, secret, uid, Write, f.expires, f.uid, Some(f.expires), asked, now);
  }
}
