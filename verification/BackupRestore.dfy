/** What a backup holds and what a restore imports (backend/src/backup.rs). */
module BackupRestore {
  import opened Wrappers
  import opened Json
  import opened BackupCrypto
  import Backup

  /** The settings and tables that decide how a backup is encrypted. */
  datatype Settings = Settings(mode: Option<Bytes>, passphraseEnc: Option<Bytes>, recipients: seq<RecipientRow>)

  /** A row of backup_recipients. */
  datatype RecipientRow = RecipientRow(recipient: Recipient, active: bool)

  /** `WHERE is_active = TRUE`. */
  function ActiveOf(rows: seq<RecipientRow>): seq<Recipient> {
    if rows == [] then [] else (if rows[0].active then [rows[0].recipient] else []) + ActiveOf(rows[1..])
  }

  type Opener = Bytes -> Option<Bytes>

  const PASSPHRASE := Ascii("passphrase")
  const ENVELOPE := Ascii("envelope")

  /** `resolve_backup_passphrase`; `opener` is the KEK decryption. */
  function StoredPassphrase(s: Settings, opener: Opener): Result<Option<Bytes>> {
    if s.mode != Some(PASSPHRASE) then Ok(None) else
      match s.passphraseEnc
      case None => Ok(None)
      case Some(enc) =>
        if enc == [] then Ok(None) else
          match opener(enc)
          case None => Err("cannot decrypt")
          case Some(pass) => Ok(if pass == [] then None else Some(pass))
  }

  /** `resolve_enc_mode`; None is a plain backup. */
  function ResolveEncMode(s: Settings, opener: Opener): Result<Option<EncMode>> {
    if s.mode == Some(PASSPHRASE) then
      match StoredPassphrase(s, opener)
      case Err(e) => Err(e)
      case Ok(None) => Ok(None)
      case Ok(Some(pass)) => Ok(Some(Passphrase(pass)))
    else if s.mode == Some(ENVELOPE) then
      var active := ActiveOf(s.recipients);
      if active == [] then Err("no active recipients") else Ok(Some(Envelope(active)))
    else Ok(None)
  }

  /** `payload` is what a run with these settings writes for `dump`. */
  ghost predicate Payload(p: Prims, s: Settings, opener: Opener, dump: Bytes, payload: Bytes) {
    match ResolveEncMode(s, opener)
    case Err(_) => false
    case Ok(None) => payload == dump
    case Ok(Some(mode)) => exists at, rnd | Sized(rnd, mode) :: Sealed(p, dump, mode, at, rnd, payload)
  }

  /** What a run writes, and whether it names it as encrypted: the dump itself or a fresh container. */
  method Produce(p: Prims, s: Settings, opener: Opener, dump: Bytes, createdAt: Bytes, rnd: Random)
    returns (r: Result<Backup.Produced>)
    requires forall mode :: ResolveEncMode(s, opener) == Ok(Some(mode)) ==> Sized(rnd, mode)
    ensures r.Ok? ==> Payload(p, s, opener, dump, r.value.payload)
    ensures r.Ok? ==> (r.value.encrypted <==> WantsEncryption(s, opener))
    ensures r.Ok? && r.value.encrypted ==> IsEncrypted(r.value.payload)
    ensures r.Ok? && !r.value.encrypted ==> r.value.payload == dump
  {
    hide IsEncrypted, Sealed, WantsEncryption;
    match ResolveEncMode(s, opener) {
      case Err(e) => return Err(e);
      case Ok(None) =>
        WantsMeans(s, opener);
        return Ok(Backup.Produced(false, dump));
      case Ok(Some(mode)) =>
        WantsMeans(s, opener);
        var sealed := EncryptBackup(p, dump, mode, createdAt, rnd);
        match sealed {
          case Err(e) => return Err(e);
          case Ok(c) =>
            SealedIsEncrypted(p, dump, mode, createdAt, rnd, c);
            return Ok(Backup.Produced(true, c));
        }
    }
  }

  lemma WantsMeans(s: Settings, opener: Opener)
    ensures ResolveEncMode(s, opener).Ok? ==> (ResolveEncMode(s, opener).value.Some? <==> WantsEncryption(s, opener))
  {
    ModesDiffer();
  }

  /** What the operator hands in with the file. */
  datatype Supplied = Supplied(passphrase: Option<Bytes>, keyPem: Option<Bytes>, keyPass: Option<Bytes>)

  predicate Blank(t: Bytes) {
    forall i :: 0 <= i < |t| ==> t[i] == 32 || 9 <= t[i] <= 13
  }

  predicate GivesKey(x: Supplied) {
    x.keyPem.Some? && !Blank(x.keyPem.value)
  }

  predicate GivesPassphrase(x: Supplied) {
    x.passphrase.Some? && x.passphrase.value != []
  }

  /** `restore_backup` up to the import: the SQL that is fed to the database. */
  function RestoredSql(p: Prims, s: Settings, opener: Opener, data: Bytes, x: Supplied): Result<Bytes> {
    if !IsEncrypted(data) then Ok(data)
    else if GivesKey(x) then
      DecryptBackup(p, data, WithKey(x.keyPem.value, if x.keyPass == Some([]) then None else x.keyPass))
    else if GivesPassphrase(x) then DecryptBackup(p, data, WithPassphrase(x.passphrase.value))
    else
      match StoredPassphrase(s, opener)
      case Err(e) => Err(e)
      case Ok(None) => Err("this backup is encrypted; a passphrase or a recipient private key is required")
      case Ok(Some(pass)) => DecryptBackup(p, data, WithPassphrase(pass))
  }

  /** A file restores to its own bytes in every situation exactly when it does not start with the magic. */
  lemma PlainRestoresIff(p: Prims, dump: Bytes)
    ensures (forall s: Settings, opener: Opener, x: Supplied :: RestoredSql(p, s, opener, dump, x) == Ok(dump))
       <==> !IsEncrypted(dump)
  {
    if IsEncrypted(dump) {
      var s := Settings(None, None, []);
      var opener: Opener := b => None;
      var x := Supplied(None, None, None);
      assert RestoredSql(p, s, opener, dump, x).Err?;
    }
  }

  /** These settings hold this passphrase. */
  predicate Stores(s: Settings, opener: Opener, pass: Bytes) {
    && s.mode == Some(Ascii("passphrase")) && s.passphraseEnc.Some? && s.passphraseEnc.value != []
    && opener(s.passphraseEnc.value) == Some(pass) && pass != []
  }

  /** A passphrase backup restores under the passphrase that was stored when it was made, typed in or still stored,
      and under nothing that offers a private key. */
  lemma PassphraseRestores(p: Prims, s: Settings, opener: Opener, dump: Bytes, payload: Bytes, pass: Bytes,
                           later: Settings, laterOpener: Opener, x: Supplied)
    requires Lawful(p) && Payload(p, s, opener, dump, payload) && Stores(s, opener, pass)
    ensures GivesKey(x) ==> RestoredSql(p, later, laterOpener, payload, x).Err?
    ensures !GivesKey(x) && x.passphrase == Some(pass) ==> RestoredSql(p, later, laterOpener, payload, x) == Ok(dump)
    ensures !GivesKey(x) && !GivesPassphrase(x) && Stores(later, laterOpener, pass) ==>
              RestoredSql(p, later, laterOpener, payload, x) == Ok(dump)
    ensures !GivesKey(x) && !GivesPassphrase(x) && (forall q :: !Stores(later, laterOpener, q)) ==>
              RestoredSql(p, later, laterOpener, payload, x).Err?
  {
    hide DecryptBackup, Sealed, IsEncrypted, Lawful;
    var at, rnd :| Sized(rnd, Passphrase(pass)) && Sealed(p, dump, Passphrase(pass), at, rnd, payload);
    PassphraseRoundTrip(p, dump, pass, at, rnd, payload);
    StoredIff(later, laterOpener, pass);
    if q :| StoredPassphrase(later, laterOpener) == Ok(Some(q)) { StoredIff(later, laterOpener, q); }
  }

  /** An empty passphrase counts as none. */
  lemma EmptyPassphraseIsNone(p: Prims, s: Settings, opener: Opener, data: Bytes, x: Supplied)
    ensures RestoredSql(p, s, opener, data, x.(passphrase := Some([])))
         == RestoredSql(p, s, opener, data, x.(passphrase := None))
  {}

  /** A blank private key counts as none. */
  lemma BlankKeyIsNone(p: Prims, s: Settings, opener: Opener, data: Bytes, x: Supplied, spaces: Bytes)
    requires forall i :: 0 <= i < |spaces| ==> spaces[i] == 32 || spaces[i] == 9 || spaces[i] == 10 || spaces[i] == 13
    ensures RestoredSql(p, s, opener, data, x.(keyPem := Some(spaces)))
         == RestoredSql(p, s, opener, data, x.(keyPem := None))
  {}

  lemma StoredIff(s: Settings, opener: Opener, pass: Bytes)
    ensures StoredPassphrase(s, opener) == Ok(Some(pass)) <==> Stores(s, opener, pass)
  {}

  /** An active row has this fingerprint. */
  predicate HasActiveKey(rows: seq<RecipientRow>, fp: Bytes) {
    exists i :: 0 <= i < |rows| && rows[i].active && rows[i].recipient.fingerprint == fp
  }

  /** Every row was enrolled from a key of its own. */
  predicate RowsEnrolled(p: Prims, rows: seq<RecipientRow>) {
    Enrolled(p, seq(|rows|, i requires 0 <= i < |rows| => rows[i].recipient))
  }

  lemma {:induction false} ActiveMeans(p: Prims, rows: seq<RecipientRow>, fp: Bytes)
    ensures Listed(ActiveOf(rows), fp) <==> HasActiveKey(rows, fp)
    ensures RowsEnrolled(p, rows) ==> Enrolled(p, ActiveOf(rows))
    ensures ActiveOf(rows) == [] <==> forall i :: 0 <= i < |rows| ==> !rows[i].active
  {
    if rows != [] {
      ActiveMeans(p, rows[1..], fp);
      var head := if rows[0].active then [rows[0].recipient] else [];
      ListedConcat(head, ActiveOf(rows[1..]), fp);
      assert Listed(head, fp) <==> rows[0].active && rows[0].recipient.fingerprint == fp by {
        if rows[0].active { assert head[0].fingerprint == rows[0].recipient.fingerprint; }
      }
      assert rows == [rows[0]] + rows[1..];
      ActiveKeyCons(rows[0], rows[1..], fp);
      if RowsEnrolled(p, rows) { RowsEnrolledTail(p, rows); }
    }
  }

  lemma ListedConcat(a: seq<Recipient>, b: seq<Recipient>, fp: Bytes)
    ensures Listed(a + b, fp) <==> Listed(a, fp) || Listed(b, fp)
  {
    if i :| 0 <= i < |a| && a[i].fingerprint == fp { assert (a + b)[i].fingerprint == fp; }
    if i :| 0 <= i < |b| && b[i].fingerprint == fp { assert (a + b)[|a| + i].fingerprint == fp; }
  }

  lemma ActiveKeyCons(row: RecipientRow, rows: seq<RecipientRow>, fp: Bytes)
    ensures HasActiveKey([row] + rows, fp)
       <==> (row.active && row.recipient.fingerprint == fp) || HasActiveKey(rows, fp)
  {
    var all := [row] + rows;
    if row.active && row.recipient.fingerprint == fp { assert all[0].active && all[0].recipient.fingerprint == fp; }
    if i :| 0 <= i < |rows| && rows[i].active && rows[i].recipient.fingerprint == fp {
      assert all[i + 1].active && all[i + 1].recipient.fingerprint == fp;
    }
  }

  lemma RowsEnrolledTail(p: Prims, rows: seq<RecipientRow>)
    requires rows != [] && RowsEnrolled(p, rows)
    ensures RowsEnrolled(p, rows[1..])
    ensures Enrolled(p, [rows[0].recipient])
  {
    var all := seq(|rows|, i requires 0 <= i < |rows| => rows[i].recipient);
    var tail := seq(|rows[1..]|, i requires 0 <= i < |rows[1..]| => rows[1..][i].recipient);
    assert forall i :: 0 <= i < |tail| ==> tail[i] == all[i + 1];
    assert all[0] == rows[0].recipient;
  }

  /** The key the operator gives. */
  function KeyOf(p: Prims, x: Supplied): Option<PrivateKey> {
    if GivesKey(x) then p.loadPrivate(x.keyPem.value, if x.keyPass == Some([]) then None else x.keyPass) else None
  }

  /** An envelope backup restores for a loadable key exactly when a row with its fingerprint was active when the backup
      was made; nothing else is ever imported, and without the key it does not restore. */
  lemma EnvelopeRestoresIff(p: Prims, s: Settings, opener: Opener, dump: Bytes, payload: Bytes,
                            later: Settings, laterOpener: Opener, x: Supplied)
    requires Lawful(p) && Payload(p, s, opener, dump, payload)
    requires s.mode == Some(Ascii("envelope")) && RowsEnrolled(p, s.recipients) && KeyOf(p, x).Some?
    ensures RestoredSql(p, later, laterOpener, payload, x) == Ok(dump)
       <==> HasActiveKey(s.recipients, p.fingerprint(p.publicOf(KeyOf(p, x).value)))
    ensures RestoredSql(p, later, laterOpener, payload, x).Ok? ==>
              RestoredSql(p, later, laterOpener, payload, x) == Ok(dump)
    ensures RestoredSql(p, later, laterOpener, payload, x.(keyPem := None)).Err?
  {
    var rs := ActiveOf(s.recipients);
    ActiveMeans(p, s.recipients, p.fingerprint(p.publicOf(KeyOf(p, x).value)));
    EnvelopeModeOnly(s, opener);
    hide RestoredSql, Sealed, Lawful, Enrolled, RowsEnrolled, HasActiveKey, Listed, ActiveOf, KeyOf, ResolveEncMode;
    var at, rnd :| Sized(rnd, Envelope(rs)) && Sealed(p, dump, Envelope(rs), at, rnd, payload);
    EnvelopeOpens(p, dump, payload, rs, at, rnd, later, laterOpener, x);
  }

  lemma EnvelopeModeOnly(s: Settings, opener: Opener)
    requires s.mode == Some(ENVELOPE)
    ensures ResolveEncMode(s, opener)
         == if ActiveOf(s.recipients) == [] then Err("no active recipients")
            else Ok(Some(Envelope(ActiveOf(s.recipients))))
  {
    ModesDiffer();
  }

  lemma EnvelopeOpens(p: Prims, dump: Bytes, payload: Bytes, rs: seq<Recipient>, at: Bytes, rnd: Random,
                      later: Settings, laterOpener: Opener, x: Supplied)
    requires Lawful(p) && Sized(rnd, Envelope(rs)) && Sealed(p, dump, Envelope(rs), at, rnd, payload)
    requires Enrolled(p, rs) && KeyOf(p, x).Some?
    ensures RestoredSql(p, later, laterOpener, payload, x)
         == if Listed(rs, p.fingerprint(p.publicOf(KeyOf(p, x).value))) then Ok(dump)
            else Err("this key is not a recipient of the backup")
    ensures RestoredSql(p, later, laterOpener, payload, x.(keyPem := None)).Err?
  {
    hide DecryptBackup, Sealed, IsEncrypted, Lawful, Enrolled, Listed;
    var kp := if x.keyPass == Some([]) then None else x.keyPass;
    EnvelopeRoundTrip(p, dump, rs, at, rnd, payload, x.keyPem.value, kp, KeyOf(p, x).value);
  }

  /** The operator's input fits the way the backup was made. */
  ghost predicate Fits(p: Prims, s: Settings, opener: Opener, later: Settings, laterOpener: Opener, x: Supplied) {
    if s.mode == Some(ENVELOPE) then
      && RowsEnrolled(p, s.recipients)
      && KeyOf(p, x).Some? && HasActiveKey(s.recipients, p.fingerprint(p.publicOf(KeyOf(p, x).value)))
    else
      forall pass :: Stores(s, opener, pass) ==>
        && !GivesKey(x)
        && (x.passphrase == Some(pass) || (!GivesPassphrase(x) && Stores(later, laterOpener, pass)))
  }

  /** In every encryption mode a restore with fitting input imports the dump that was backed up. */
  lemma BackupRestores(p: Prims, s: Settings, opener: Opener, dump: Bytes, payload: Bytes,
                       later: Settings, laterOpener: Opener, x: Supplied)
    requires Lawful(p) && Payload(p, s, opener, dump, payload) && Fits(p, s, opener, later, laterOpener, x)
    requires !WantsEncryption(s, opener) ==> !IsEncrypted(dump)
    ensures RestoredSql(p, later, laterOpener, payload, x) == Ok(dump)
  {
    hide Lawful, Payload, RestoredSql, RowsEnrolled, HasActiveKey;
    ModesDiffer();
    if s.mode == Some(ENVELOPE) {
      EnvelopeRestoresIff(p, s, opener, dump, payload, later, laterOpener, x);
    } else if pass :| Stores(s, opener, pass) {
      PassphraseRestores(p, s, opener, dump, payload, pass, later, laterOpener, x);
    } else {
      NothingStored(p, s, opener, dump, payload);
      EncryptedAtRest(p, s, opener, dump, payload);
      PlainRestoresIff(p, dump);
    }
  }

  /** A stored passphrase that cannot be read fails the backup. */
  lemma NothingStored(p: Prims, s: Settings, opener: Opener, dump: Bytes, payload: Bytes)
    requires Payload(p, s, opener, dump, payload) && s.mode != Some(ENVELOPE)
    requires forall pass :: !Stores(s, opener, pass)
    ensures !WantsEncryption(s, opener)
  {
    if WantsEncryption(s, opener) {
      var pass := opener(s.passphraseEnc.value);
      if pass.Some? { assert Stores(s, opener, pass.value); }
    }
  }

  /** When a backup can be made at all: not in envelope mode without an active recipient, and not with a stored
      passphrase that does not open. */
  lemma NoBackup(p: Prims, s: Settings, opener: Opener, dump: Bytes, payload: Bytes)
    requires (s.mode == Some(ENVELOPE) && forall i :: 0 <= i < |s.recipients| ==> !s.recipients[i].active)
          || (s.mode == Some(PASSPHRASE) && s.passphraseEnc.Some? && s.passphraseEnc.value != []
              && opener(s.passphraseEnc.value) == None)
    ensures !Payload(p, s, opener, dump, payload)
  {
    ModesDiffer();
    ActiveMeans(p, s.recipients, []);
  }

  /** Envelope mode, or passphrase mode with a passphrase stored. */
  predicate WantsEncryption(s: Settings, opener: Opener) {
    s.mode == Some(ENVELOPE)
    || (s.mode == Some(PASSPHRASE) && s.passphraseEnc.Some? && s.passphraseEnc.value != []
        && opener(s.passphraseEnc.value) != Some([]))
  }

  /** A backup that is written is encrypted exactly when the settings want it: passphrase mode without a stored
      passphrase writes the plain dump. */
  lemma EncryptedAtRest(p: Prims, s: Settings, opener: Opener, dump: Bytes, payload: Bytes)
    requires Payload(p, s, opener, dump, payload)
    ensures WantsEncryption(s, opener) ==> IsEncrypted(payload) && Ascii("EZBAK1") + [10] <= payload
    ensures !WantsEncryption(s, opener) ==> payload == dump
  {
    MagicIs();
    hide Sealed;
    ModesDiffer();
    match ResolveEncMode(s, opener) {
      case Ok(Some(mode)) =>
        var at, rnd :| Sized(rnd, mode) && Sealed(p, dump, mode, at, rnd, payload);
        SealedIsEncrypted(p, dump, mode, at, rnd, payload);
      case _ =>
    }
  }

  lemma SealedIsEncrypted(p: Prims, dump: Bytes, mode: EncMode, at: Bytes, rnd: Random, c: Bytes)
    requires Sized(rnd, mode) && Sealed(p, dump, mode, at, rnd, c)
    ensures IsEncrypted(c)
  {
    hide BaseHeader, KdfHeader, Wraps, HeaderJson;
  }
}
