/** The `.ezbak` container of backend/src/backup_crypto.rs.  Compression, key derivation, AES-GCM and
    RSA are parameters; all that is assumed of them is that undoing follows doing. */
module BackupCrypto {
  import opened Wrappers
  import opened Positional
  import opened Basics
  import opened Json
  import opened Base64
  import Radix

  datatype PublicKey = PublicKey(id: nat)
  datatype PrivateKey = PrivateKey(id: nat)

  /** Library functions; None stands for an error. */
  datatype Prims = Prims(
    gzip: Bytes -> Bytes,
    gunzip: Bytes -> Option<Bytes>,
    kdf: (Bytes, Bytes, KdfCost) -> Option<Bytes>,
    seal: (Bytes, Bytes, Bytes) -> Bytes,
    open: (Bytes, Bytes, Bytes) -> Option<Bytes>,
    loadPublic: Bytes -> Option<PublicKey>,
    publicPem: PublicKey -> Bytes,
    loadPrivate: (Bytes, Option<Bytes>) -> Option<PrivateKey>,
    publicOf: PrivateKey -> PublicKey,
    fingerprint: PublicKey -> Bytes,
    wrap: (PublicKey, Bytes, Bytes) -> Option<Bytes>,
    unwrap: (PrivateKey, Bytes) -> Option<Bytes>)

  datatype KdfCost = KdfCost(m: nat, t: nat, p: nat)

  const ARGON := KdfCost(19456, 2, 1)

  ghost predicate Lawful(p: Prims) {
    && (forall x {:trigger p.gzip(x)} :: p.gunzip(p.gzip(x)) == Some(x))
    && (forall k, n, x {:trigger p.seal(k, n, x)} :: |k| == 32 ==> p.open(k, n, p.seal(k, n, x)) == Some(x))
    && (forall w, s, c {:trigger p.kdf(w, s, c)} :: p.kdf(w, s, c).Some? ==> |p.kdf(w, s, c).value| == 32)
    && (forall k, s, d {:trigger p.wrap(p.publicOf(k), s, d)} ::
          p.wrap(p.publicOf(k), s, d).Some? ==> p.unwrap(k, p.wrap(p.publicOf(k), s, d).value) == Some(d))
    && (forall k {:trigger p.publicPem(k)} :: p.loadPublic(p.publicPem(k)) == Some(k))
    && (forall a, b {:trigger p.fingerprint(a), p.fingerprint(b)} :: p.fingerprint(a) == p.fingerprint(b) ==> a == b)
  }

  /** The laws contradict nothing: identity functions with keys counted in unary satisfy them. */
  lemma LawsAreConsistent()
    ensures exists p :: Lawful(p)
  {
    hide Radix.Zeros;
    var p := Prims(x => x, x => Some(x), (w, s, c) => Some(Radix.Zeros(32)), (k, n, x) => x, (k, n, x) => Some(x),
                   x => Some(PublicKey(|x|)), (k: PublicKey) => Radix.Zeros(k.id), (x, w) => None,
                   (k: PrivateKey) => PublicKey(k.id), (k: PublicKey) => Radix.Zeros(k.id),
                   (k, s, d) => Some(d), (k, w) => Some(w));
    assert Lawful(p);
  }

  // ---- header ----

  datatype KdfParams = KdfParams(algo: Bytes, salt: Bytes, cost: KdfCost)

  datatype RecipientWrap = RecipientWrap(kind: Bytes, fp: Bytes, wrap: Bytes)

  datatype Header = Header(
    v: nat, mode: Bytes, comp: Bytes, cipher: Bytes, nonce: Bytes,
    kdf: Option<KdfParams>, recipients: Option<seq<RecipientWrap>>, createdAt: Bytes)

  predicate InRange(h: Header) {
    h.v < 256 && (h.kdf.Some? ==> h.kdf.value.cost.m < U32 && h.kdf.value.cost.t < U32 && h.kdf.value.cost.p < U32)
  }

  function KdfJson(k: KdfParams): Json {
    Obj([Field(Ascii("algo"), Str(k.algo)), Field(Ascii("salt"), Str(k.salt)),
         Field(Ascii("m"), Num(k.cost.m)), Field(Ascii("t"), Num(k.cost.t)), Field(Ascii("p"), Num(k.cost.p))])
  }

  function WrapJson(w: RecipientWrap): Json {
    Obj([Field(Ascii("kind"), Str(w.kind)), Field(Ascii("fp"), Str(w.fp)), Field(Ascii("wrap"), Str(w.wrap))])
  }

  function WrapsJson(ws: seq<RecipientWrap>): Json {
    Arr(seq(|ws|, i requires 0 <= i < |ws| => WrapJson(ws[i])))
  }

  /** Absent options are not written. */
  function HeaderJson(h: Header): Json {
    Obj([Field(Ascii("v"), Num(h.v)), Field(Ascii("mode"), Str(h.mode)), Field(Ascii("comp"), Str(h.comp)),
         Field(Ascii("cipher"), Str(h.cipher)), Field(Ascii("nonce"), Str(h.nonce))]
        + (if h.kdf.Some? then [Field(Ascii("kdf"), KdfJson(h.kdf.value))] else [])
        + (if h.recipients.Some? then [Field(Ascii("recipients"), WrapsJson(h.recipients.value))] else [])
        + [Field(Ascii("created_at"), Str(h.createdAt))])
  }

  function Get(fields: seq<Field>, key: Bytes): Option<Json> {
    if fields == [] then None
    else if fields[0].key == key then Some(fields[0].value) else Get(fields[1..], key)
  }

  function GetStr(j: Json, key: Bytes): Option<Bytes> {
    if !j.Obj? then None else
      match Get(j.fields, key) case Some(Str(s)) => Some(s) case _ => None
  }

  function GetNum(j: Json, key: Bytes, bound: nat): Option<nat> {
    if !j.Obj? then None else
      match Get(j.fields, key) case Some(Num(n)) => (if n < bound then Some(n) else None) case _ => None
  }

  function KdfOf(j: Json): Option<KdfParams> {
    match (GetStr(j, Ascii("algo")), GetStr(j, Ascii("salt")),
           GetNum(j, Ascii("m"), U32), GetNum(j, Ascii("t"), U32), GetNum(j, Ascii("p"), U32))
    case (Some(a), Some(s), Some(m), Some(t), Some(p)) => Some(KdfParams(a, s, KdfCost(m, t, p)))
    case _ => None
  }

  function WrapOf(j: Json): Option<RecipientWrap> {
    match (GetStr(j, Ascii("kind")), GetStr(j, Ascii("fp")), GetStr(j, Ascii("wrap")))
    case (Some(k), Some(f), Some(w)) => Some(RecipientWrap(k, f, w))
    case _ => None
  }

  function WrapsOf(items: seq<Json>): Option<seq<RecipientWrap>> {
    if items == [] then Some([]) else
      match (WrapOf(items[0]), WrapsOf(items[1..]))
      case (Some(w), Some(ws)) => Some([w] + ws)
      case _ => None
  }

  function HeaderOf(j: Json): Option<Header> {
    if !j.Obj? then None else
      var kdf := match Get(j.fields, Ascii("kdf"))
                 case None => Some(None)
                 case Some(k) => (match KdfOf(k) case None => None case Some(x) => Some(Some(x)));
      var recs := match Get(j.fields, Ascii("recipients"))
                  case None => Some(None)
                  case Some(Arr(items)) => (match WrapsOf(items) case None => None case Some(x) => Some(Some(x)))
                  case Some(_) => None;
      match (GetNum(j, Ascii("v"), 256), GetStr(j, Ascii("mode")), GetStr(j, Ascii("comp")),
             GetStr(j, Ascii("cipher")), GetStr(j, Ascii("nonce")), GetStr(j, Ascii("created_at")))
      case (Some(v), Some(m), Some(c), Some(ci), Some(n), Some(at)) =>
        if kdf.Some? && recs.Some? then Some(Header(v, m, c, ci, n, kdf.value, recs.value, at)) else None
      case _ => None
  }

  // ---- framing ----

  const MAGIC: Bytes := [69, 90, 66, 65, 75, 49, 10]

  lemma MagicIs()
    ensures MAGIC == Ascii("EZBAK1") + [10]
  {}

  predicate IsEncrypted(data: Bytes) {
    MAGIC <= data
  }

  function Assemble(h: Header, ciphertext: Bytes): Bytes {
    MAGIC + Print(HeaderJson(h)) + [NEWLINE] + ciphertext
  }

  /** Position of the first newline. */
  function FindNewline(t: Bytes): (r: Option<nat>)
    ensures r.Some? ==> r.value < |t| && t[r.value] == NEWLINE && NEWLINE !in t[..r.value]
    ensures r == None ==> NEWLINE !in t
  {
    if t == [] then None
    else if t[0] == NEWLINE then Some(0)
    else match FindNewline(t[1..])
      case None => None
      case Some(n) =>
        assert t[..n + 1] == [t[0]] + t[1..][..n];
        Some(n + 1)
  }

  function ParseContainer(container: Bytes): Result<(Header, Bytes)> {
    if !IsEncrypted(container) then Err("not an Akamana encrypted backup") else
      var rest := container[|MAGIC|..];
      match FindNewline(rest)
      case None => Err("malformed backup header")
      case Some(nl) =>
        match Parse(rest[..nl])
        case None => Err("invalid backup header")
        case Some(j) =>
          match HeaderOf(j)
          case None => Err("invalid backup header")
          case Some(h) => Ok((h, rest[nl + 1..]))
  }

  // ---- encryption ----

  datatype Recipient = Recipient(fingerprint: Bytes, publicKeyPem: Bytes)

  /** `recipient_from_public_pem`: the stored fingerprint and PEM are those of the key that was read. */
  function RecipientFrom(p: Prims, pem: Bytes): Option<Recipient> {
    match p.loadPublic(pem)
    case None => None
    case Some(k) => Some(Recipient(p.fingerprint(k), p.publicPem(k)))
  }

  datatype EncMode = Passphrase(pass: Bytes) | Envelope(recipients: seq<Recipient>)

  /** The random bytes of one encryption; `seeds` are those of the OAEP paddings. */
  datatype Random = Random(nonce: Bytes, salt: Bytes, dek: Bytes, seeds: seq<Bytes>)

  predicate Sized(r: Random, m: EncMode) {
    |r.nonce| == 12 && |r.salt| == 16 && |r.dek| == 32 && (m.Envelope? ==> |r.seeds| == |m.recipients|)
  }

  function B64(data: Bytes): Bytes
  {
    EncodedAscii(data);
    Ascii(Encode(data))
  }

  lemma EncodedAscii(data: Bytes)
    ensures forall i :: 0 <= i < |Encode(data)| ==> Encode(data)[i] as int < 128
  {
    BodyBack(data);
    forall i | 0 <= i < |Encode(data)| ensures Encode(data)[i] as int < 128 {
      if i < |Body(data)| { assert Sextet(Body(data)[i]).Some?; }
    }
  }

  function FromB64(text: Bytes): Option<Bytes> {
    DecodeStrict(Chars(text))
  }

  lemma B64Back(data: Bytes)
    ensures FromB64(B64(data)) == Some(data)
  {
    hide Encode, DecodeStrict;
    EncodedAscii(data);
    assert Chars(B64(data)) == Encode(data);
    StrictRoundTrip(data);
  }

  function WrapFor(p: Prims, r: Recipient, dek: Bytes, seed: Bytes): Option<RecipientWrap> {
    match p.loadPublic(r.publicKeyPem)
    case None => None
    case Some(k) =>
      match p.wrap(k, seed, dek)
      case None => None
      case Some(w) => Some(RecipientWrap(Ascii("rsa-oaep"), r.fingerprint, B64(w)))
  }

  /** A wrap for every recipient, or None if one of them fails. */
  ghost predicate Wraps(p: Prims, rs: seq<Recipient>, dek: Bytes, seeds: seq<Bytes>, ws: seq<RecipientWrap>)
    requires |seeds| == |rs|
  {
    |ws| == |rs| && forall i :: 0 <= i < |rs| ==> WrapFor(p, rs[i], dek, seeds[i]) == Some(ws[i])
  }

  function BaseHeader(mode: Bytes, rnd: Random, createdAt: Bytes): Header {
    Header(1, mode, Ascii("gzip"), Ascii("aes-256-gcm"), B64(rnd.nonce), None, None, createdAt)
  }

  function KdfHeader(rnd: Random): KdfParams {
    KdfParams(Ascii("argon2id"), B64(rnd.salt), ARGON)
  }

  /** `c` is the container made of `plaintext`. */
  ghost predicate Sealed(p: Prims, plaintext: Bytes, mode: EncMode, createdAt: Bytes, rnd: Random, c: Bytes)
    requires Sized(rnd, mode)
  {
    match mode
    case Passphrase(pass) =>
      && pass != []
      && p.kdf(pass, rnd.salt, ARGON).Some?
      && c == Assemble(BaseHeader(Ascii("passphrase"), rnd, createdAt).(kdf := Some(KdfHeader(rnd))),
                       p.seal(p.kdf(pass, rnd.salt, ARGON).value, rnd.nonce, p.gzip(plaintext)))
    case Envelope(rs) =>
      && rs != []
      && exists ws | Wraps(p, rs, rnd.dek, rnd.seeds, ws) ::
        c == Assemble(BaseHeader(Ascii("envelope"), rnd, createdAt).(recipients := Some(ws)),
                      p.seal(rnd.dek, rnd.nonce, p.gzip(plaintext)))
  }

  /** `encrypt_backup`: fails only when no container exists. */
  method EncryptBackup(p: Prims, plaintext: Bytes, mode: EncMode, createdAt: Bytes, rnd: Random)
    returns (r: Result<Bytes>)
    requires Sized(rnd, mode)
    ensures r.Ok? ==> Sealed(p, plaintext, mode, createdAt, rnd, r.value)
    ensures r.Err? ==> forall c :: !Sealed(p, plaintext, mode, createdAt, rnd, c)
  {
    hide Assemble, BaseHeader, KdfHeader, WrapFor;
    var compressed := p.gzip(plaintext);
    match mode {
      case Passphrase(pass) =>
        if pass == [] { return Err("backup passphrase is not set"); }
        var key := p.kdf(pass, rnd.salt, ARGON);
        if key == None { return Err("key derivation failed"); }
        var h := BaseHeader(Ascii("passphrase"), rnd, createdAt).(kdf := Some(KdfHeader(rnd)));
        return Ok(Assemble(h, p.seal(key.value, rnd.nonce, compressed)));
      case Envelope(recips) =>
        if recips == [] { return Err("no backup recipients configured for envelope encryption"); }
        var wraps: seq<RecipientWrap> := [];
        for i := 0 to |recips|
          invariant |wraps| == i
          invariant forall j :: 0 <= j < i ==> WrapFor(p, recips[j], rnd.dek, rnd.seeds[j]) == Some(wraps[j])
        {
          var w := WrapFor(p, recips[i], rnd.dek, rnd.seeds[i]);
          if w == None { return Err("DEK wrap failed"); }
          wraps := wraps + [w.value];
        }
        assert Wraps(p, recips, rnd.dek, rnd.seeds, wraps);
        var h := BaseHeader(Ascii("envelope"), rnd, createdAt).(recipients := Some(wraps));
        return Ok(Assemble(h, p.seal(rnd.dek, rnd.nonce, compressed)));
    }
  }

  // ---- decryption ----

  datatype Unlock = WithPassphrase(pass: Bytes) | WithKey(pem: Bytes, keyPass: Option<Bytes>)

  function FindWrap(ws: seq<RecipientWrap>, fp: Bytes): Option<RecipientWrap> {
    if ws == [] then None else if ws[0].fp == fp then Some(ws[0]) else FindWrap(ws[1..], fp)
  }

  function UnwrapKey(p: Prims, h: Header, pem: Bytes, keyPass: Option<Bytes>): Result<Bytes> {
    match p.loadPrivate(pem, if keyPass == Some([]) then None else keyPass)
    case None => Err("invalid private key")
    case Some(priv) =>
      if h.recipients == None then Err("backup has no recipient information") else
        match FindWrap(h.recipients.value, p.fingerprint(p.publicOf(priv)))
        case None => Err("this key is not a recipient of the backup")
        case Some(w) =>
          match FromB64(w.wrap)
          case None => Err("invalid wrapped key")
          case Some(wrapped) =>
            match p.unwrap(priv, wrapped)
            case None => Err("failed to unwrap backup key")
            case Some(key) => if |key| != 32 then Err("unexpected key length") else Ok(key)
  }

  function DeriveKey(p: Prims, h: Header, pass: Bytes): Result<Bytes> {
    match h.kdf
    case None => Err("backup missing KDF parameters")
    case Some(k) =>
      match FromB64(k.salt)
      case None => Err("invalid backup salt")
      case Some(salt) =>
        match p.kdf(pass, salt, k.cost)
        case None => Err("key derivation failed")
        case Some(key) => Ok(key)
  }

  function HeaderKey(p: Prims, h: Header, unlock: Unlock): Result<Bytes> {
    if h.mode == Ascii("passphrase") && unlock.WithPassphrase? then DeriveKey(p, h, unlock.pass)
    else if h.mode == Ascii("envelope") && unlock.WithKey? then UnwrapKey(p, h, unlock.pem, unlock.keyPass)
    else Err("unsupported backup mode or wrong unlock method")
  }

  /** A nonce of another length than 12 panics in `Nonce::from_slice`; here it is an error like the rest. */
  function OpenBody(p: Prims, h: Header, key: Bytes, ciphertext: Bytes): Result<Bytes> {
    match FromB64(h.nonce)
    case None => Err("invalid backup nonce")
    case Some(nonce) =>
      if |nonce| != 12 then Err("nonce length") else
        match p.open(key, nonce, ciphertext)
        case None => Err("wrong passphrase or corrupt backup")
        case Some(compressed) =>
          match p.gunzip(compressed)
          case None => Err("gunzip failed")
          case Some(plain) => Ok(plain)
  }

  function DecryptBackup(p: Prims, container: Bytes, unlock: Unlock): Result<Bytes> {
    match ParseContainer(container)
    case Err(e) => Err(e)
    case Ok((h, ciphertext)) =>
      match HeaderKey(p, h, unlock)
      case Err(e) => Err(e)
      case Ok(key) => OpenBody(p, h, key, ciphertext)
  }

  // ---- the container reads back ----

  lemma {:induction false} WrapsBack(ws: seq<RecipientWrap>)
    ensures WrapsOf(WrapsJson(ws).items) == Some(ws)
  {
    if ws == [] {
    } else {
      WrapsBack(ws[1..]);
      var items := WrapsJson(ws).items;
      assert items[1..] == WrapsJson(ws[1..]).items;
      WrapBack(ws[0]);
      assert [ws[0]] + ws[1..] == ws;
    }
  }

  lemma WrapBack(w: RecipientWrap)
    ensures WrapOf(WrapJson(w)) == Some(w)
  {
    var fs := WrapJson(w).fields;
    GetAt(fs, 0, Ascii("kind"));
    GetAt(fs, 1, Ascii("fp"));
    assert fs[0].key[0] == 107 && fs[2].key[0] == 119;
    GetAt(fs, 2, Ascii("wrap"));
  }

  /** The first field with a key is found. */
  lemma {:induction false} GetAt(fs: seq<Field>, i: nat, key: Bytes)
    requires i < |fs| && fs[i].key == key && forall j :: 0 <= j < i ==> fs[j].key != key
    ensures Get(fs, key) == Some(fs[i].value)
  {
    if i > 0 { GetAt(fs[1..], i - 1, key); }
  }

  lemma {:induction false} GetNone(fs: seq<Field>, key: Bytes)
    requires forall j :: 0 <= j < |fs| ==> fs[j].key != key
    ensures Get(fs, key) == None
  {
    if fs != [] { GetNone(fs[1..], key); }
  }

  lemma KdfBack(k: KdfParams)
    requires k.cost.m < U32 && k.cost.t < U32 && k.cost.p < U32
    ensures KdfOf(KdfJson(k)) == Some(k)
  {
    var fs := KdfJson(k).fields;
    assert fs[0].key[0] == 97 && fs[1].key[0] == 115 && fs[2].key[0] == 109 && fs[3].key[0] == 116
        && fs[4].key[0] == 112;
    GetAt(fs, 0, Ascii("algo"));
    GetAt(fs, 1, Ascii("salt"));
    GetAt(fs, 2, Ascii("m"));
    GetAt(fs, 3, Ascii("t"));
    GetAt(fs, 4, Ascii("p"));
  }

  lemma KeyLengths()
    ensures Ascii("mode") != Ascii("comp") && Ascii("recipients") != Ascii("created_at")
  {
    assert Ascii("mode")[0] == 109 && Ascii("comp")[0] == 99;
    assert Ascii("recipients")[0] == 114 && Ascii("created_at")[0] == 99;
  }

  lemma HeaderFields(h: Header)
    ensures var fs := HeaderJson(h).fields;
            && Get(fs, Ascii("v")) == Some(Num(h.v))
            && Get(fs, Ascii("mode")) == Some(Str(h.mode))
            && Get(fs, Ascii("comp")) == Some(Str(h.comp))
            && Get(fs, Ascii("cipher")) == Some(Str(h.cipher))
            && Get(fs, Ascii("nonce")) == Some(Str(h.nonce))
  {
    hide Get, Ascii;
    var fs := HeaderJson(h).fields;
    KeyLengths();
    GetAt(fs, 0, Ascii("v"));
    GetAt(fs, 1, Ascii("mode"));
    GetAt(fs, 2, Ascii("comp"));
    GetAt(fs, 3, Ascii("cipher"));
    GetAt(fs, 4, Ascii("nonce"));
  }

  lemma HeaderOptions(h: Header)
    ensures var fs := HeaderJson(h).fields;
            && Get(fs, Ascii("created_at")) == Some(Str(h.createdAt))
            && Get(fs, Ascii("kdf")) == (if h.kdf.Some? then Some(KdfJson(h.kdf.value)) else None)
            && Get(fs, Ascii("recipients"))
            == (if h.recipients.Some? then Some(WrapsJson(h.recipients.value)) else None)
  {
    hide Get, Ascii;
    var fs := HeaderJson(h).fields;
    KeyLengths();
    GetAt(fs, |fs| - 1, Ascii("created_at"));
    if h.kdf.Some? { GetAt(fs, 5, Ascii("kdf")); } else { GetNone(fs, Ascii("kdf")); }
    if h.recipients.Some? { GetAt(fs, |fs| - 2, Ascii("recipients")); } else { GetNone(fs, Ascii("recipients")); }
  }

  /** A written header reads back, with or without its optional parts. */
  lemma HeaderBack(h: Header)
    requires InRange(h)
    ensures HeaderOf(HeaderJson(h)) == Some(h)
  {
    hide Get, Ascii, KdfOf, KdfJson, WrapsOf, HeaderJson;
    HeaderFields(h);
    HeaderOptions(h);
    if h.kdf.Some? { KdfBack(h.kdf.value); }
    if h.recipients.Some? { WrapsBack(h.recipients.value); }
    assert HeaderJson(h).Obj? by { HeaderIsObject(h); }
  }

  lemma HeaderIsObject(h: Header)
    ensures HeaderJson(h).Obj?
  {}

  lemma {:induction false} FirstNewline(line: Bytes, tail: Bytes)
    requires NEWLINE !in line
    ensures FindNewline(line + [NEWLINE] + tail) == Some(|line|)
  {
    var t := line + [NEWLINE] + tail;
    if line == [] {
      assert t[0] == NEWLINE;
    } else {
      assert t[1..] == line[1..] + [NEWLINE] + tail;
      FirstNewline(line[1..], tail);
    }
  }

  /** The first newline after the magic ends the header, whatever the header's strings and whatever the
      ciphertext. */
  lemma ContainerBack(h: Header, ciphertext: Bytes)
    requires InRange(h)
    ensures IsEncrypted(Assemble(h, ciphertext))
    ensures ParseContainer(Assemble(h, ciphertext)) == Ok((h, ciphertext))
  {
    hide HeaderOf, HeaderJson, Parse, Print, FindNewline;
    var line := Print(HeaderJson(h));
    var rest := line + [NEWLINE] + ciphertext;
    var c := Assemble(h, ciphertext);
    assert c == MAGIC + rest;
    assert c[..|MAGIC|] == MAGIC && c[|MAGIC|..] == rest;
    OneLine(HeaderJson(h));
    FirstNewline(line, ciphertext);
    assert rest[..|line|] == line && rest[|line| + 1..] == ciphertext;
    ParsePrint(HeaderJson(h));
    HeaderBack(h);
  }

  // ---- round trips ----

  lemma ModesDiffer()
    ensures Ascii("passphrase") != Ascii("envelope")
  {}

  lemma SealedBodyBack(p: Prims, h: Header, nonce: Bytes, key: Bytes, plaintext: Bytes)
    requires Lawful(p) && |key| == 32 && |nonce| == 12 && h.nonce == B64(nonce)
    ensures OpenBody(p, h, key, p.seal(key, nonce, p.gzip(plaintext))) == Ok(plaintext)
  {
    hide B64, FromB64;
    B64Back(nonce);
  }

  /** The passphrase that sealed a backup opens it; a private key never does. */
  lemma PassphraseRoundTrip(p: Prims, plaintext: Bytes, pass: Bytes, createdAt: Bytes, rnd: Random, c: Bytes)
    requires Lawful(p) && Sized(rnd, Passphrase(pass)) && Sealed(p, plaintext, Passphrase(pass), createdAt, rnd, c)
    ensures IsEncrypted(c) && DecryptBackup(p, c, WithPassphrase(pass)) == Ok(plaintext)
    ensures forall pem, kp :: DecryptBackup(p, c, WithKey(pem, kp)).Err?
  {
    hide Assemble, ParseContainer, IsEncrypted, B64, FromB64, OpenBody, Ascii;
    var h := BaseHeader(Ascii("passphrase"), rnd, createdAt).(kdf := Some(KdfHeader(rnd)));
    var key := p.kdf(pass, rnd.salt, ARGON).value;
    ModesDiffer();
    ContainerBack(h, p.seal(key, rnd.nonce, p.gzip(plaintext)));
    B64Back(rnd.salt);
    SealedBodyBack(p, h, rnd.nonce, key, plaintext);
  }

  /** A container made with other key derivation parameters than today's opens with those it records. */
  lemma RecordedCostOpens(p: Prims, plaintext: Bytes, pass: Bytes, createdAt: Bytes, rnd: Random, cost: KdfCost)
    requires Lawful(p) && Sized(rnd, Passphrase(pass)) && cost.m < U32 && cost.t < U32 && cost.p < U32
    requires p.kdf(pass, rnd.salt, cost).Some?
    ensures var h := BaseHeader(Ascii("passphrase"), rnd, createdAt).(kdf := Some(KdfHeader(rnd).(cost := cost)));
            var c := Assemble(h, p.seal(p.kdf(pass, rnd.salt, cost).value, rnd.nonce, p.gzip(plaintext)));
            DecryptBackup(p, c, WithPassphrase(pass)) == Ok(plaintext)
  {
    hide Assemble, ParseContainer, IsEncrypted, B64, FromB64, OpenBody, Ascii;
    var h := BaseHeader(Ascii("passphrase"), rnd, createdAt).(kdf := Some(KdfHeader(rnd).(cost := cost)));
    var key := p.kdf(pass, rnd.salt, cost).value;
    ContainerBack(h, p.seal(key, rnd.nonce, p.gzip(plaintext)));
    B64Back(rnd.salt);
    SealedBodyBack(p, h, rnd.nonce, key, plaintext);
  }

  /** The header tells the version, the methods and the fresh nonce. */
  predicate ShowsMethods(rnd: Random, h: Header) {
    && h.v == 1 && h.comp == Ascii("gzip") && h.cipher == Ascii("aes-256-gcm")
    && FromB64(h.nonce) == Some(rnd.nonce)
  }

  /** The body is sealed under the key that the passphrase gives with the fresh salt and the fixed cost. */
  predicate ShowsDerived(p: Prims, plaintext: Bytes, pass: Bytes, rnd: Random, h: Header, body: Bytes) {
    && h.mode == Ascii("passphrase") && h.kdf.Some? && h.kdf.value.algo == Ascii("argon2id")
    && FromB64(h.kdf.value.salt) == Some(rnd.salt) && h.kdf.value.cost == KdfCost(19456, 2, 1)
    && var key := p.kdf(pass, rnd.salt, h.kdf.value.cost);
       key.Some? && body == p.seal(key.value, rnd.nonce, p.gzip(plaintext))
  }

  /** The body is sealed under the fresh data key, and there is one entry for every recipient. */
  predicate ShowsWrapped(p: Prims, plaintext: Bytes, rs: seq<Recipient>, rnd: Random, h: Header, body: Bytes) {
    && h.mode == Ascii("envelope") && h.kdf == None && h.recipients.Some? && |h.recipients.value| == |rs|
    && (forall i :: 0 <= i < |rs| ==> h.recipients.value[i].fp == rs[i].fingerprint)
    && body == p.seal(rnd.dek, rnd.nonce, p.gzip(plaintext))
  }

  predicate Shows(p: Prims, plaintext: Bytes, mode: EncMode, rnd: Random, h: Header, body: Bytes) {
    && ShowsMethods(rnd, h)
    && match mode
       case Passphrase(pass) => ShowsDerived(p, plaintext, pass, rnd, h, body)
       case Envelope(rs) => ShowsWrapped(p, plaintext, rs, rnd, h, body)
  }

  /** What can be read off a container without any key. */
  lemma ContainerShows(p: Prims, plaintext: Bytes, mode: EncMode, createdAt: Bytes, rnd: Random, c: Bytes)
    requires Sized(rnd, mode) && Sealed(p, plaintext, mode, createdAt, rnd, c)
    ensures exists h: Header, body: Bytes ::
      ParseContainer(c) == Ok((h, body)) && h.createdAt == createdAt && Shows(p, plaintext, mode, rnd, h, body)
  {
    hide Assemble, ParseContainer, IsEncrypted, B64, FromB64, Ascii;
    B64Back(rnd.nonce);
    match mode {
      case Passphrase(pass) =>
        var h := BaseHeader(Ascii("passphrase"), rnd, createdAt).(kdf := Some(KdfHeader(rnd)));
        B64Back(rnd.salt);
        var body := p.seal(p.kdf(pass, rnd.salt, ARGON).value, rnd.nonce, p.gzip(plaintext));
        ContainerBack(h, body);
        assert Shows(p, plaintext, mode, rnd, h, body);
      case Envelope(rs) =>
        var ws :| Wraps(p, rs, rnd.dek, rnd.seeds, ws)
               && c == Assemble(BaseHeader(Ascii("envelope"), rnd, createdAt).(recipients := Some(ws)),
                                p.seal(rnd.dek, rnd.nonce, p.gzip(plaintext)));
        var h := BaseHeader(Ascii("envelope"), rnd, createdAt).(recipients := Some(ws));
        var body := p.seal(rnd.dek, rnd.nonce, p.gzip(plaintext));
        ContainerBack(h, body);
        assert Shows(p, plaintext, mode, rnd, h, body);
    }
  }

  predicate Enrolled(p: Prims, rs: seq<Recipient>) {
    forall i :: 0 <= i < |rs| ==>
      var k := p.loadPublic(rs[i].publicKeyPem); k.Some? && p.fingerprint(k.value) == rs[i].fingerprint
  }

  /** Recipients stored by `recipient_from_public_pem` carry the fingerprint of their own key. */
  lemma EnrolledFrom(p: Prims, pems: seq<Bytes>, rs: seq<Recipient>)
    requires Lawful(p) && |pems| == |rs|
    requires forall i :: 0 <= i < |rs| ==> RecipientFrom(p, pems[i]) == Some(rs[i])
    ensures Enrolled(p, rs)
  {
    forall i | 0 <= i < |rs|
      ensures p.loadPublic(rs[i].publicKeyPem).Some?
      ensures p.fingerprint(p.loadPublic(rs[i].publicKeyPem).value) == rs[i].fingerprint
    {
      var k := p.loadPublic(pems[i]).value;
      assert rs[i].publicKeyPem == p.publicPem(k);
    }
  }

  predicate Listed(rs: seq<Recipient>, fp: Bytes) {
    exists i :: 0 <= i < |rs| && rs[i].fingerprint == fp
  }

  /** The wrap found for a listed key is one made for that key. */
  lemma {:induction false} FoundWrap(p: Prims, rs: seq<Recipient>, dek: Bytes, seeds: seq<Bytes>,
                                     ws: seq<RecipientWrap>, priv: PrivateKey)
    requires Lawful(p) && |seeds| == |rs| && Wraps(p, rs, dek, seeds, ws) && Enrolled(p, rs)
    ensures var found := FindWrap(ws, p.fingerprint(p.publicOf(priv)));
            && (found.Some? <==> Listed(rs, p.fingerprint(p.publicOf(priv))))
            && (found.Some? ==> exists w :: FromB64(found.value.wrap) == Some(w) && p.unwrap(priv, w) == Some(dek))
    decreases |rs|
  {
    hide B64, FromB64, Ascii;
    var fp := p.fingerprint(p.publicOf(priv));
    if rs != [] {
      assert WrapFor(p, rs[0], dek, seeds[0]) == Some(ws[0]);
      if rs[0].fingerprint == fp {
        var k := p.loadPublic(rs[0].publicKeyPem).value;
        assert k == p.publicOf(priv);
        B64Back(p.wrap(k, seeds[0], dek).value);
      } else {
        assert forall i :: 0 <= i < |rs[1..]| ==> rs[1..][i] == rs[i + 1] && seeds[1..][i] == seeds[i + 1];
        FoundWrap(p, rs[1..], dek, seeds[1..], ws[1..], priv);
        if Listed(rs, fp) {
          var i :| 0 <= i < |rs| && rs[i].fingerprint == fp;
          assert rs[1..][i - 1].fingerprint == fp;
        }
      }
    }
  }

  /** An envelope opens for every listed recipient and for nobody else. */
  lemma EnvelopeRoundTrip(p: Prims, plaintext: Bytes, rs: seq<Recipient>, createdAt: Bytes, rnd: Random, c: Bytes,
                          pem: Bytes, keyPass: Option<Bytes>, priv: PrivateKey)
    requires Lawful(p) && Sized(rnd, Envelope(rs)) && Sealed(p, plaintext, Envelope(rs), createdAt, rnd, c)
    requires Enrolled(p, rs) && p.loadPrivate(pem, if keyPass == Some([]) then None else keyPass) == Some(priv)
    ensures IsEncrypted(c)
    ensures DecryptBackup(p, c, WithKey(pem, keyPass))
         == if Listed(rs, p.fingerprint(p.publicOf(priv))) then Ok(plaintext)
            else Err("this key is not a recipient of the backup")
    ensures forall pass :: DecryptBackup(p, c, WithPassphrase(pass)).Err?
  {
    hide Assemble, ParseContainer, IsEncrypted, B64, FromB64, OpenBody, Ascii, Enrolled, Listed, FindWrap, WrapFor;
    var ws :| Wraps(p, rs, rnd.dek, rnd.seeds, ws)
           && c == Assemble(BaseHeader(Ascii("envelope"), rnd, createdAt).(recipients := Some(ws)),
                            p.seal(rnd.dek, rnd.nonce, p.gzip(plaintext)));
    var h := BaseHeader(Ascii("envelope"), rnd, createdAt).(recipients := Some(ws));
    ModesDiffer();
    ContainerBack(h, p.seal(rnd.dek, rnd.nonce, p.gzip(plaintext)));
    FoundWrap(p, rs, rnd.dek, rnd.seeds, ws, priv);
    SealedBodyBack(p, h, rnd.nonce, rnd.dek, plaintext);
  }
}
