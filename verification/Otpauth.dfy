/** The enrolment URI of backend/src/mfa.rs: percent-encoding (section 2.1 of RFC 3986) and the otpauth
    format, with a reader as authenticator apps have one. */
module Otpauth {
  import opened Wrappers
  import opened Positional
  import opened Hexadecimal

  type Bytes = seq<Byte>

  predicate Unreserved(b: Byte) {
    65 <= b <= 90 || 97 <= b <= 122 || 48 <= b <= 57 || b == 45 || b == 46 || b == 95 || b == 126
  }

  function UpperHex(d: nat): (c: char)
    requires d < 16
  {
    (if d < 10 then 48 + d else 55 + d) as char
  }

  function HexOf(c: char): Option<nat> {
    if c as int < 256 then NibbleOf(c as int) else None
  }

  function EncodeByte(b: Byte): string {
    if Unreserved(b) then [b as char] else ['%', UpperHex(b / 16), UpperHex(b % 16)]
  }

  function Encoded(s: Bytes): string {
    if s == [] then [] else Encoded(s[..|s| - 1]) + EncodeByte(s[|s| - 1])
  }

  /** `percent_encode`. */
  method PercentEncode(input: Bytes) returns (out: string)
    ensures out == Encoded(input)
  {
    out := "";
    for i := 0 to |input|
      invariant out == Encoded(input[..i])
    {
      assert input[..i + 1][..i] == input[..i];
      if Unreserved(input[i]) {
        out := out + [input[i] as char];
      } else {
        out := out + ['%', UpperHex(input[i] / 16), UpperHex(input[i] % 16)];
      }
    }
    assert input[..|input|] == input;
  }

  /** Percent-decoding; None on a percent sign without two hexadecimal digits. */
  function Decoded(t: string): Option<Bytes> {
    if t == [] then Some([])
    else if t[0] != '%' then
      match Decoded(t[1..])
      case None => None
      case Some(r) => if t[0] as int < 256 then Some([t[0] as int] + r) else None
    else if |t| < 3 then None
    else
      match (HexOf(t[1]), HexOf(t[2]), Decoded(t[3..]))
      case (Some(h), Some(l), Some(r)) => Some([h * 16 + l] + r)
      case _ => None
  }

  /** The characters that encoded text consists of: none of them delimits a URI component. */
  predicate Harmless(t: string) {
    forall i :: 0 <= i < |t| ==> t[i] == '%' || (t[i] as int < 256 && Unreserved(t[i] as int))
  }

  lemma {:induction false} EncodedHarmless(s: Bytes)
    ensures Harmless(Encoded(s))
  {
    if s != [] {
      EncodedHarmless(s[..|s| - 1]);
      assert forall d: nat | d < 16 :: Unreserved(UpperHex(d) as int);
    }
  }

  lemma ByteBack(b: Byte, t: string)
    ensures Decoded(EncodeByte(b) + t) == match Decoded(t) case None => None case Some(r) => Some([b] + r)
  {
    var u := EncodeByte(b) + t;
    if Unreserved(b) {
      assert u[1..] == t;
    } else {
      assert u[3..] == t;
      DivMod(b, 16);
      assert HexOf(u[1]) == Some(b / 16) && HexOf(u[2]) == Some(b % 16);
    }
  }

  lemma {:induction false} DecodeAfter(s: Bytes, t: string)
    ensures Decoded(Encoded(s) + t) == match Decoded(t) case None => None case Some(r) => Some(s + r)
  {
    hide Decoded, EncodeByte;
    if s == [] {
      assert Encoded(s) + t == t;
      match Decoded(t) { case None => case Some(r) => assert s + r == r; }
    } else {
      var head, last := s[..|s| - 1], s[|s| - 1];
      assert Encoded(s) + t == Encoded(head) + (EncodeByte(last) + t);
      DecodeAfter(head, EncodeByte(last) + t);
      ByteBack(last, t);
      match Decoded(t) { case None => case Some(r) => assert head + ([last] + r) == s + r; }
    }
  }

  /** Decoding undoes encoding for every byte string, so different names never encode alike. */
  lemma PercentRoundTrip(s: Bytes)
    ensures Decoded(Encoded(s)) == Some(s)
  {
    DecodeAfter(s, "");
    assert Encoded(s) + "" == Encoded(s) && s + [] == s;
  }

  // ---- the URI ----

  const HEAD := "otpauth://totp/"
  const TAIL := "&algorithm=SHA1&digits=6&period=30"

  /** `otpauth_uri`. */
  function Uri(issuer: Bytes, account: Bytes, secret: string): string {
    HEAD + Encoded(issuer) + ":" + Encoded(account) + "?secret=" + secret + "&issuer=" + Encoded(issuer) + TAIL
  }

  /** The text before the first `c` and the text after it. */
  function Cut(t: string, c: char): (r: Option<(string, string)>)
    ensures r.Some? ==> |r.value.1| < |t|
  {
    if t == [] then None
    else if t[0] == c then Some(([], t[1..]))
    else match Cut(t[1..], c) case None => None case Some((a, b)) => Some(([t[0]] + a, b))
  }

  function Drop(t: string, prefix: string): Option<string> {
    if prefix <= t then Some(t[|prefix|..]) else None
  }

  /** One parameter: a name and its value. */
  function ReadPair(t: string): (string, string) {
    match Cut(t, '=') case None => (t, "") case Some(p) => p
  }

  /** The parameters of a query, in order. */
  function ReadQuery(t: string): seq<(string, string)>
    decreases |t|
  {
    match Cut(t, '&')
    case None => [ReadPair(t)]
    case Some(cut) => [ReadPair(cut.0)] + ReadQuery(cut.1)
  }

  /** What an app takes from a URI. */
  datatype Enrolment = Enrolment(issuer: Bytes, account: Bytes, query: seq<(string, string)>)

  function ReadUri(uri: string): Option<Enrolment> {
    match Drop(uri, HEAD)
    case None => None
    case Some(u) =>
      match Cut(u, ':')
      case None => None
      case Some((name, v)) =>
        match Cut(v, '?')
        case None => None
        case Some((account, query)) =>
          match (Decoded(name), Decoded(account))
          case (Some(i), Some(a)) => Some(Enrolment(i, a, ReadQuery(query)))
          case _ => None
  }

  lemma {:induction false} CutAt(a: string, c: char, b: string)
    requires c !in a
    ensures Cut(a + ([c] + b), c) == Some((a, b))
  {
    var t := a + ([c] + b);
    if a == [] {
      assert t[1..] == b;
    } else {
      assert t[1..] == a[1..] + ([c] + b);
      CutAt(a[1..], c, b);
      assert [a[0]] + a[1..] == a;
    }
  }

  lemma {:induction false} CutNone(a: string, c: char)
    requires c !in a
    ensures Cut(a, c) == None
  {
    if a != [] { CutNone(a[1..], c); }
  }

  lemma DropPrefix(p: string, t: string)
    ensures Drop(p + t, p) == Some(t)
  {
    assert (p + t)[..|p|] == p && (p + t)[|p|..] == t;
  }

  function PairText(name: string, value: string): string {
    name + (['='] + value)
  }

  lemma LastPair(name: string, value: string)
    requires '=' !in name && '&' !in name && '&' !in value
    ensures ReadQuery(PairText(name, value)) == [(name, value)]
  {
    CutAt(name, '=', value);
    CutNone(PairText(name, value), '&');
  }

  lemma FirstPair(name: string, value: string, rest: string)
    requires '=' !in name && '&' !in name && '&' !in value
    ensures ReadQuery(PairText(name, value) + (['&'] + rest)) == [(name, value)] + ReadQuery(rest)
  {
    CutAt(name, '=', value);
    CutAt(PairText(name, value), '&', rest);
  }

  lemma TailPairs()
    ensures TAIL == ['&'] + (PairText("algorithm", "SHA1")
                             + (['&'] + (PairText("digits", "6") + (['&'] + PairText("period", "30")))))
  {}

  lemma ReadTail()
    ensures ReadQuery(TAIL[1..]) == [("algorithm", "SHA1"), ("digits", "6"), ("period", "30")]
  {
    hide ReadQuery;
    TailPairs();
    var last := PairText("period", "30");
    var more := PairText("digits", "6") + (['&'] + last);
    assert TAIL[1..] == PairText("algorithm", "SHA1") + (['&'] + more);
    FirstPair("algorithm", "SHA1", more);
    FirstPair("digits", "6", last);
    LastPair("period", "30");
  }

  lemma Split(a: string, b: string, c: string)
    ensures (a + b) + c == a + (b + c)
  {}

  lemma UriParts(issuer: Bytes, account: Bytes, secret: string)
    ensures var i := Encoded(issuer);
            var query := PairText("secret", secret) + (['&'] + (PairText("issuer", i) + (['&'] + TAIL[1..])));
            Uri(issuer, account, secret) == HEAD + (i + ([':'] + (Encoded(account) + (['?'] + query))))
  {
    hide Encoded;
    var i, a := Encoded(issuer), Encoded(account);
    assert ['&'] + TAIL[1..] == TAIL;
    assert "?secret=" == ['?'] + "secret" + ['='] && "&issuer=" == ['&'] + "issuer" + ['='];
    var issue := ['&'] + (PairText("issuer", i) + TAIL);
    assert "&issuer=" + i + TAIL == issue by {
      Split(['&'], "issuer" + ['='], i);
      Split("issuer", ['='], i);
      Split(['&'], PairText("issuer", i), TAIL);
      assert "&issuer=" == ['&'] + ("issuer" + ['=']);
    }
    var query := PairText("secret", secret) + issue;
    assert "?secret=" + secret + issue == ['?'] + query by {
      Split(['?'], "secret" + ['='], secret);
      Split("secret", ['='], secret);
      Split(['?'], PairText("secret", secret), issue);
      assert "?secret=" == ['?'] + ("secret" + ['=']);
    }
    var s := HEAD + i + ":" + a;
    Split(s + "?secret=" + secret, "&issuer=", i);
    Split(s + "?secret=" + secret, "&issuer=" + i, TAIL);
    Split(s, "?secret=", secret);
    Split(s, "?secret=" + secret, issue);
    Split(HEAD + i + ":", a, ['?'] + query);
    Split(HEAD + i, ":", a + (['?'] + query));
    Split(HEAD, i, [':'] + (a + (['?'] + query)));
  }

  lemma NotIn(t: string, c: char)
    requires Harmless(t) && c != '%' && c as int < 256 && !Unreserved(c as int)
    ensures c !in t
  {}

  /** Whatever issuer and account are called, an app reads back exactly what was enrolled: both names from the
      label, and the five parameters. */
  lemma UriReadsBack(issuer: Bytes, account: Bytes, secret: string)
    requires '&' !in secret
    ensures ReadUri(Uri(issuer, account, secret))
         == Some(Enrolment(issuer, account, [("secret", secret), ("issuer", Encoded(issuer)), ("algorithm", "SHA1"),
                                             ("digits", "6"), ("period", "30")]))
    ensures Decoded(Encoded(issuer)) == Some(issuer)
    ensures "otpauth://totp/" <= Uri(issuer, account, secret)
  {
    hide Encoded, Decoded, Cut, Drop, Uri, Harmless, ReadQuery, PairText;
    var i, a := Encoded(issuer), Encoded(account);
    EncodedHarmless(issuer);
    EncodedHarmless(account);
    NotIn(i, ':');
    NotIn(i, '&');
    NotIn(a, '?');
    UriParts(issuer, account, secret);
    ReadTail();
    FirstPair("issuer", i, TAIL[1..]);
    var more := PairText("issuer", i) + (['&'] + TAIL[1..]);
    FirstPair("secret", secret, more);
    var query := PairText("secret", secret) + (['&'] + more);
    var v := a + (['?'] + query);
    DropPrefix(HEAD, i + ([':'] + v));
    CutAt(i, ':', v);
    CutAt(a, '?', query);
    PercentRoundTrip(issuer);
    PercentRoundTrip(account);
    assert ReadQuery(query)
        == [("secret", secret)] + ([("issuer", i)] + [("algorithm", "SHA1"), ("digits", "6"), ("period", "30")])
        == [("secret", secret), ("issuer", i), ("algorithm", "SHA1"), ("digits", "6"), ("period", "30")];
    assert ReadUri(Uri(issuer, account, secret)) == Some(Enrolment(issuer, account, ReadQuery(query)));
    assert HEAD <= HEAD + (i + ([':'] + v));
  }

  /** Encoded text consists of unreserved characters, which stand for themselves, and of percent signs with two upper
      case hexadecimal digits for everything else (RFC 3986, sections 2.1 and 2.3). */
  lemma EncodedBytes(b: Byte)
    ensures var c := b as char;
            if 'A' <= c <= 'Z' || 'a' <= c <= 'z' || '0' <= c <= '9' || c == '-' || c == '.' || c == '_' || c == '~'
            then EncodeByte(b) == [c]
            else && |EncodeByte(b)| == 3 && EncodeByte(b)[0] == '%'
                 && forall k :: 1 <= k < 3 ==> '0' <= EncodeByte(b)[k] <= '9' || 'A' <= EncodeByte(b)[k] <= 'F'
  {}
}
