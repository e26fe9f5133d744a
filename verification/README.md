# Akamana: proofs about the PKI and key-lifecycle server

Akamana issues certificates, pushes private keys to hosts, backs its database up and renews what expires.
This project models the parts of it whose correctness is not visible in one function: shell programs built
from arbitrary paths and run over an SSH channel, second-factor codecs, the backup store and its container,
the renewal, alert and lockout loops, the startup migrations, and the pure data algorithms. `dafny verify
dfyconfig.toml` checks everything.

- **Deployment.** `Shell` is a tokenizer, parser and printer for the POSIX shell language as far as the
  commands use it (IEEE Std 1003.1-2017, Shell Command Language, sections 2.2.1, 2.2.2, 2.3 and 2.9);
  `RemoteHost` gives it a meaning on a file system whose utilities may fail, misread a name as an option or be killed
  at any point; `DeployCommands` holds
  the texts that deploy.rs builds, `Upload` what they do, `Channel` the message loops (RFC 4254, sections 5.3
  and 6.10), `Deploy` the run with its job row, journal and target status, `Probes` what its probes ask and when,
  `DeployOutcome` what whole runs achieve.
- **Second factor.** `Mfa` (RFC 4648, section 6) refines wrapping 32-bit arithmetic to bit strings
  (`Positional`, `Radix`); `Totp` is RFC 4226, section 5.3 and RFC 6238, section 5.2; `Otpauth` the enrolment URI.
- **Backups.** `Json` and `Base64` carry the container of `BackupCrypto`; `BackupRestore` joins making and
  restoring; `BackupName`, `Rotation` and `Backup` are the directory, `BackupHistory` all its histories,
  `BackupRemote` the copy on a mounted path.
- **State machines.** `Lifecycle`, `Auth`, `Notifier`: tables as state, statements as atomic steps, and
  interruption between any two statements where the source has no transaction.
- **Startup.** `Migrations` is a semantics of the guarded DDL statements with interrupted starts,
  `MigrationScript` the 27 migration files, `SqlText` the cutting into statements, `Startup` the built-in
  applications.
- **Data algorithms.** `Crypto`, `CertTree`, `Base64Url`.

Library cryptography, gzip, the network, clocks and random bytes are parameters. `BackupCrypto.Lawful` lists what
is assumed of the cryptography (undoing follows doing; fingerprints of different keys differ);
`BackupCrypto.LawsAreConsistent` shows that these laws can hold together.

## Where the code and its documentation or intent part

Each is proved, with the exact condition under which the code does what is meant.

- `base32_decode` is documented to refuse other characters; a character above U+00FF is cut to its low byte
  first, so some are taken (`Mfa.Base32AcceptsForeignLetter`); on ASCII input it is exact (`Mfa.Base32Undocumented`).
- A code of the next time step is refused where the server's time plus 30 leaves 64 bits (`Totp.LastStepRefused`).
- A sudo upload can report success and install nothing: when the destination is a directory or ends in a slash, or
  a name starts with a dash (`Upload.SudoExact`). The staged copy of a key is documented to go whatever happens; it
  stays exactly when it was written and `rm` was not reached, failed, or took its name for an option
  (`Upload.StagedFileRemoved`, `Upload.KilledLeavesStaged`).
- The built-in nginx entry sends certificate and chain to one path, haproxy key and certificate
  (`DeployOutcome.NginxHoldsChain`, `DeployOutcome.HaproxyLosesKey`).
- The lockout counts failures of the account and of the address together, each once, where the comment in
  backend/src/auth.rs:241-242 speaks of either; the two agree exactly when one count reaches eight or the union stays
  below (`Auth.AgreesWithEitherIff`). Its DATETIME column drops fractions of a second, so nine failures fit into a
  closed 15-minute window; the widths that hold are given exactly (`Auth.WindowBoundIff`, `Auth.SequentialBoundIff`).
- For the same reason two notifications can be exactly one cooldown apart; all histories keep strictly more exactly
  when the cooldown is one less than a multiple of the column's grain, which for whole seconds it is not
  (`Notifier.StrictlyMoreIff`).
- A renewed certificate is due again at once when the renewal lead is not shorter than its lifetime, which is cut
  to 825 days (`Lifecycle.DueAgain`).
- `run_backup` dumps the database twice. The newest backup agrees with the database outside the log tables exactly
  when the two dumps of the run that wrote it did (`BackupHistory.NewestAgreesIff`). A database that changes between
  them and then stays still is not backed up again by any run that skips when nothing changed
  (`BackupHistory.TornForever`).
- A plain dump that starts with the container magic cannot be restored as it is (`BackupRestore.PlainRestoresIff`).
- The remote copy is pruned among all names of the prefix, so a left-over connection probe can cost the new backup
  its copy (`BackupRemote.LeftProbeCostsBackup`).
- The comment at backend/src/db.rs:56-60 says the sudo default is set once, at the first pass; a built-in gets it
  at the start after the one that inserts it, and at every later start while its row is untouched
  (`Startup.OneStartSettlesIff`).
- `hex_to_bytes` takes a plus sign for a high digit (`Crypto.PlusAccepted`); it accepts what hexadecimal digits would
  mean exactly on the texts it does not accept with a plus sign (`Crypto.HexAcceptsIff`).
- A failing journal statement ends a deployment between two steps, and a failing error row or `finish_job` leaves the
  job "running" for good (`Deploy.Engine.RunDeployment`).

## Model

| member | source | states |
|---|---|---|
| Shell.QuotedArgsReadBack | backend/src/deploy.rs:829-831 | The space-joined quoted strings tokenize back to exactly the given list if and only if none of them contains NUL |
| Shell.ParseShow | backend/src/deploy.rs:386-413 | Any script of printable words, redirections, `&&` chains and `;` lists prints to a text that parses back to that script |
| DeployCommands.UploadParses | backend/src/deploy.rs:386-406 | The upload text of either mode parses to one fixed script for every destination, staging directory and job id, if and only if no part contains NUL |
| DeployCommands.PrivilegedParses | backend/src/deploy.rs:408-413 | Under sudo the text parses to `sudo -n sh -c` with the whole original command as one argument if and only if it is NUL-free; without sudo it is the command itself |
| DeployCommands.SudoRuns | backend/src/deploy.rs:393-403 | Running the sudo upload text is the same as: stage with umask 077, install if staging worked, remove the staged file, exit with the status of the first two |
| DeployCommands.SudoCutOff | backend/src/deploy.rs:393-403 | Killed after any number of its commands, the script has staged, installed and removed exactly as far as it came |
| RemoteHost.EnoughTime | backend/src/deploy.rs:386-406 | A shell given as many commands as its script has runs it to the end |
| DeployCommands.DirectRuns | backend/src/deploy.rs:388-392 | Running the direct upload text is the same as: write under umask 077, then change the mode if writing worked |
| DeployCommands.DirectCutOff | backend/src/deploy.rs:388-392 | The same for a script killed after any number of its commands |
| Upload.StagedNotDest | backend/src/deploy.rs:371-384 | The staged path is never the destination |
| Upload.StagedIsOption | backend/src/deploy.rs:371-384 | The staged path reads as an option exactly when the staging directory starts with a dash |
| DeployCommands.StagedPathsApart | backend/src/deploy.rs:367-384 | Staged paths in one directory, for job ids of one length, coincide if and only if job id and base name do, so simultaneous jobs never collide |
| Upload.SudoDelivers | backend/src/deploy.rs:393-403 | Status zero on installable names: the destination is exactly the input, owned by root, in the requested mode; the staged file is gone, or left as staged when `rm` fails; nothing else changed |
| Upload.SudoMisses | backend/src/deploy.rs:393-403 | Status zero on any other names leaves the destination as it was, if a utility that reads a name as an option leaves files alone |
| Upload.SudoExact | backend/src/deploy.rs:393-403 | On a smooth run the status is zero, and the file arrives if and only if the names are installable |
| Upload.DirectoryIsMissed | backend/src/deploy.rs:393-403 | A directory as destination is such a failing name unless the staged file lies in it |
| Upload.SudoTouchesLittle | backend/src/deploy.rs:393-403 | Whatever fails and whenever the shell is killed, only the staged path and the install target can change, if a utility that reads a name as an option leaves files alone |
| Upload.StagedFileRemoved | backend/src/deploy.rs:393-403 | A script that ran to the end leaves no staged file when the removal works (`rm` is not kept from it, the name is no option), and otherwise leaves one if and only if there was one or `cat` opened it |
| Upload.KilledLeavesStaged | backend/src/deploy.rs:393-403 | A script killed after n commands leaves a staged file if and only if it came to write one, or there was one, and it did not come to a removal that works |
| Upload.SudoStatus | backend/src/deploy.rs:393-403 | The exit status is zero if and only if both `cat` and `install` succeeded, whether `rm` worked, failed or misread its operand; a newly staged key is readable by its owner alone |
| Upload.DirectDelivers | backend/src/deploy.rs:388-392 | Without sudo, status zero means the content is there and nothing else changed, and says which mode it has |
| Channel.ReadExec | backend/src/deploy.rs:719-755 | The message loop returns the last exit status sent before Close and all output up to it |
| Channel.ReadUpload | backend/src/deploy.rs:793-817 | The same for an upload, collecting standard error only |
| Channel.OutputParts | backend/src/deploy.rs:734-750 | What is collected is the texts in the order of arrival, standard output only for a command |
| Channel.EofIsSilent | backend/src/deploy.rs:734-750 | Removing every Eof message changes neither status nor output |
| Channel.ExitStatusKept | backend/src/deploy.rs:734-750 | Wherever Eof arrives, before or after it, the one exit status sent is the code, as a signed 32-bit number |
| Deploy.Engine.ExecCommand | backend/src/deploy.rs:719-755 | One command is attempted; its code and output are those of the channel, or nothing when the channel fails |
| Deploy.Engine.Probe | backend/src/deploy.rs:178-255 | A probe passes if and only if the link held, the status is zero and OK was heard |
| Probes.ProbePasses | backend/src/deploy.rs:178-255 | A probe passes if and only if the channel worked, the last status before Close is zero and OK stands somewhere in what was heard |
| Probes.SudoProbeAsks | backend/src/deploy.rs:178-182 | The sudo probe parses to: a command as root without a password, a look for `install` with its output dropped, and OK |
| Probes.DirProbeAsks | backend/src/deploy.rs:229-242 | For every NUL-free path the probe parses to tests of exactly its directory: that it exists and, without sudo, that it can be written |
| Probes.StagingProbeAsks | backend/src/deploy.rs:192-204 | The staging probe makes exactly the staging directory, keeps it to its owner and tests that it can be written |
| Probes.ParentOf | backend/src/deploy.rs:821-827 | A path is its directory, a slash and its last part |
| Deploy.Engine.WriteRemoteFile | backend/src/deploy.rs:757-819 | One upload: the files of the host after a script that was not started, killed anywhere or run to the end, whether the upload passed, and its journal rows; without the first of them nothing is sent |
| Deploy.Engine.PreFlight | backend/src/deploy.rs:166-264 | All probes of the plan are attempted in order up to the first that fails, or up to a failing journal statement |
| Deploy.Engine.UploadAll | backend/src/deploy.rs:278-312 | The uploads of the plan are attempted in order up to the first that fails, or up to a failing journal statement |
| Deploy.Engine.RunReload | backend/src/deploy.rs:314-333 | The reload command runs after everything else, when one is configured that is not white space only |
| Deploy.Engine.RunSteps | backend/src/deploy.rs:166-337 | The run passes if and only if every step of its plan and every journal statement does; it leaves exactly the effects of the attempted steps, or of some first steps when a journal statement failed |
| Deploy.Engine.RunInner | backend/src/deploy.rs:128-164 | A target that does not resolve or a failed login attempts nothing; success if and only if every step and journal statement passes |
| Deploy.Engine.RunDeployment | backend/src/deploy.rs:90-126 | Job row, target status, journal and result after a run in which any bookkeeping statement may fail: the job ends once, with success if and only if all steps and journal statements passed, and stays running if and only if its error row or its closing statement fails; a check-only run leaves the target status alone |
| DeployOutcome.ReloadComesLast | backend/src/deploy.rs:314-333 | A reload is attempted only after every upload of the run passed |
| Probes.ReloadSent | backend/src/deploy.rs:314-333 | A run that goes through has sent the reload command, last, if and only if one is configured that is not blank: as configured, or under sudo as the one argument of a root shell |
| Probes.ProbedBeforeSent | backend/src/deploy.rs:166-312 | No file is sent before the directory of every file of the run was found usable and, under sudo, sudo and the staging directory |
| Probes.SentPaths | backend/src/deploy.rs:278-312 | Nothing is sent to any path but those of certificate, key and chain |
| DeployOutcome.AttemptedWritesPrefix | backend/src/deploy.rs:278-312 | The uploads a run attempts are a prefix of key, certificate, chain |
| DeployOutcome.CheckOnlyChangesNothing | backend/src/deploy.rs:266-276 | No prefix of a check-only run changes a file |
| DeployOutcome.RunTouchesLittle | backend/src/deploy.rs:278-312 | Wherever a run stops and whatever was cut off on the way, files outside the staged paths and destinations of its attempted uploads are as they were |
| DeployOutcome.WriteLands | backend/src/deploy.rs:757-819 | An upload that passed, on a host that answers truthfully, has put its file in place and touched no other destination |
| DeployOutcome.FilesInPlace | backend/src/deploy.rs:278-312 | After a successful run each file is in place if and only if no later upload of the run went to its path with another content or mode |
| DeployOutcome.DistinctPathsDeliverAll | backend/src/deploy.rs:278-312 | With pairwise distinct paths every file of a successful run is in place |
| DeployOutcome.SuccessfulRunDelivers | backend/src/deploy.rs:278-312 | With pairwise distinct paths a successful run leaves the private key in the key path with mode 600, and certificate and chain in their paths with mode 644 |
| DeployOutcome.KeySentToItsPath | backend/src/deploy.rs:278-312 | No run, however it ends, sends the private key to another path or for others to read |
| DeployOutcome.NginxHoldsChain | backend/src/db.rs:116-125 | With the built-in nginx paths the certificate path holds the chain after a successful run |
| DeployOutcome.HaproxyLosesKey | backend/src/db.rs:146-155 | With the built-in haproxy paths the private key is never in place after a successful run |
| Mfa.Base32Encode | backend/src/mfa.rs:28-46 | The loop over a wrapping 32-bit accumulator writes exactly the letters of the regrouped bit string, ceil(8n/5) of them |
| Mfa.Base32Decode | backend/src/mfa.rs:50-68 | The loop returns exactly the bytes of the bit string of the accepted symbols, or nothing if a character is refused |
| Mfa.Base32Denotes | backend/src/mfa.rs:28-46 | The letters are those of the RFC 4648 alphabet for base-32 digits that denote the number of the bytes, shifted to fill the last digit |
| Mfa.Base32DecodeDenotes | backend/src/mfa.rs:50-68 | Of every accepted text the decoder returns the bytes of the number its symbols denote, less the bits that fill no byte |
| Mfa.Base32RoundTrip | backend/src/mfa.rs:28-68 | Decoding undoes encoding for every byte sequence |
| Mfa.Base32Canonical | backend/src/mfa.rs:28-68 | Every text: it is accepted and encoding undoes decoding if and only if it has letters of the alphabet alone and few unused bits, all zero |
| Mfa.Base32Forgiving | backend/src/mfa.rs:50-68 | Texts that differ only in case, equals signs, blanks and dashes decode alike |
| Mfa.Base32Undocumented | backend/src/mfa.rs:48-62 | On ASCII input the decoder refuses exactly what its documentation says |
| Mfa.Base32AcceptsForeignLetter | backend/src/mfa.rs:57-62 | A character outside ASCII whose low byte is a letter is accepted |
| Totp.VerifyTotp | backend/src/mfa.rs:124-145 | A code is accepted if and only if its digits are six and are the HOTP code of the previous, current or next step that exists in 64 bits |
| Totp.AcceptedMeans | backend/src/mfa.rs:124-145 | A code is accepted if and only if it has six digits and they denote the code number of the 30-second step of the time, the one before, or the one after if it exists in 64 bits |
| Totp.DigitsInParts | backend/src/mfa.rs:125-128 | Of a typed code exactly the digits count, in order |
| Totp.HotpDenotes | backend/src/mfa.rs:92-109 | The code of a 20-byte MAC is six digits that denote the four bytes at the offset its last byte gives, without the top bit, modulo 10^6 |
| Totp.CounterBytesDenote | backend/src/mfa.rs:92-94 | What is signed is the counter in eight bytes, most significant first |
| Totp.IssuedCodeAccepted | backend/src/mfa.rs:111-145 | A code issued at one time is accepted at any time whose step is at most one apart, if the shifted time fits 64 bits |
| Totp.LastStepRefused | backend/src/mfa.rs:130-138 | Where it does not fit, for every such pair of times there is a MAC whose code is refused |
| Otpauth.PercentEncode | backend/src/mfa.rs:158-169 | The loop writes the percent-encoding of the bytes |
| Otpauth.EncodedBytes | backend/src/mfa.rs:158-169 | Unreserved characters stand for themselves, every other byte becomes a percent sign and two upper-case hexadecimal digits |
| Otpauth.PercentRoundTrip | backend/src/mfa.rs:158-169 | Percent-decoding undoes it for every byte string |
| Otpauth.UriReadsBack | backend/src/mfa.rs:148-154 | From the enrolment URI a reader gets back exactly issuer and account, whatever the names contain, and the five parameters with the secret, the issuer, SHA1, 6 and 30 |
| Json.OneLine | backend/src/backup_crypto.rs:157-166 | Printed JSON has no raw newline, whatever its strings contain |
| Json.ParsePrint | backend/src/backup_crypto.rs:157-179 | Reading printed JSON gives the value back |
| BackupCrypto.EncryptBackup | backend/src/backup_crypto.rs:182-264 | The result is a container of the plaintext in the given mode, and it fails only when no such container exists |
| BackupCrypto.HeaderBack | backend/src/backup_crypto.rs:52-64 | Every header reads back, with or without its optional parts |
| BackupCrypto.ContainerBack | backend/src/backup_crypto.rs:157-179 | The first newline after the magic splits header from ciphertext, for every header and every ciphertext |
| BackupCrypto.ContainerShows | backend/src/backup_crypto.rs:182-264 | The header shows the fresh nonce and the fresh salt and cost or one entry for every recipient, and the body is sealed under the derived or the fresh key |
| BackupCrypto.PassphraseRoundTrip | backend/src/backup_crypto.rs:182-330 | The passphrase opens the container to the original plaintext; a private key never does |
| BackupCrypto.RecordedCostOpens | backend/src/backup_crypto.rs:28-36 | A container made with other key derivation parameters opens with those it records |
| BackupCrypto.EnrolledFrom | backend/src/backup_crypto.rs:102-117 | Recipients stored from a PEM carry the fingerprint of their own key |
| BackupCrypto.EnvelopeRoundTrip | backend/src/backup_crypto.rs:182-330 | A loadable key opens an envelope to the original plaintext if it is listed, and is turned away as no recipient otherwise; a passphrase never opens it |
| BackupCrypto.LawsAreConsistent | backend/src/backup_crypto.rs:124-155 | The laws assumed of the cryptography can hold together |
| BackupRestore.PlainRestoresIff | backend/src/backup.rs:339-377 | A file restores to its own bytes in every situation if and only if it does not start with the magic |
| BackupRestore.PassphraseRestores | backend/src/backup.rs:277-373 | A backup made while a passphrase was stored restores under it, typed in or stored at restore time, and not when a private key is offered or no passphrase is known |
| BackupRestore.BlankKeyIsNone | backend/src/backup.rs:346-356 | A private key of blanks counts as none |
| BackupRestore.EnvelopeRestoresIff | backend/src/backup.rs:302-373 | An envelope backup restores for a loadable key if and only if a recipient row with its fingerprint was active; restoring never yields anything else than the dump |
| BackupRestore.BackupRestores | backend/src/backup.rs:213-377 | In every encryption mode a restore with fitting input, in terms of the stored settings and recipient rows, imports exactly the dump that was backed up |
| BackupRestore.EncryptedAtRest | backend/src/backup.rs:213-330 | A written backup is encrypted if the settings want it, and is the plain dump otherwise; passphrase mode without a stored passphrase is the latter |
| BackupRestore.Produce | backend/src/backup.rs:213-232 | A run writes the plain dump under a plain name, or a container under an encrypted one, as the settings want it |
| BackupRestore.NoBackup | backend/src/backup.rs:277-330 | No backup is made in envelope mode without an active recipient, or when the stored passphrase does not open |
| BackupName.NameOrder | backend/src/backup.rs:213-230 | Name order is time order, whatever the suffixes; at the same millisecond the plain name comes first |
| BackupName.SidecarIsNoBackup | backend/src/backup.rs:147-149 | A signature file is never listed as a backup |
| Rotation.SortDescending | backend/src/backup.rs:176-241 | Sorting gives the same names in descending order |
| Rotation.FirstAreNewest | backend/src/backup.rs:239-245 | The first k of a descending list are exactly the names that fewer than k others exceed |
| Backup.Store.ListBackups | backend/src/backup.rs:151-178 | Exactly the backup files, greatest name first, in whatever order the directory is read |
| Backup.Store.Rotate | backend/src/backup.rs:238-245 | Exactly the names outside the newest ones go, with their signatures, as far as deleting works |
| Backup.Store.RunBackup | backend/src/backup.rs:191-245 | The directory after a run that skips, fails, is cut off in the middle of a file, or writes and rotates, and what the run returns |
| Backup.StaysIff | backend/src/backup.rs:230-245 | Which backups a writing run leaves, in any directory: those that cannot be deleted and those that fewer others exceed than the retention cut to 1..10 |
| Backup.WrittenSurvivesIff | backend/src/backup.rs:230-245 | The backup just written survives its rotation, whatever the directory held and the clock says, if and only if it cannot be deleted or fewer backups than are kept have a greater name |
| Backup.SignatureLeft | backend/src/backup.rs:233-236 | The signature left beside the new backup is that of the database without its logs, unless it could not be written |
| BackupHistory.PlayInv | backend/src/backup.rs:191-245 | In every history with an increasing clock, through any deletion that fails and any write that fails or is cut off, every file of ours has its right content and the newest backup survives |
| BackupHistory.MostRecentPart | backend/src/backup.rs:238-245 | When deletions work the directory is at all times the most recent part of all backups ever written, never more than ten and those cut off since the last whole one |
| BackupHistory.WritingRunLeaves | backend/src/backup.rs:235-245 | A run that writes leaves one backup more than there were, at most its retention cut to 1..10, its own among them |
| BackupHistory.SignaturesGoToo | backend/src/backup.rs:239-245 | When deletions work every signature in the directory is that of a backup that is there |
| BackupHistory.OthersStay | backend/src/backup.rs:235-245 | Files that are not backups stay as they were through every history |
| BackupHistory.ListingIsMostRecent | backend/src/backup.rs:151-178 | The listing is that part, newest first |
| BackupHistory.SkipsIff | backend/src/backup.rs:199-208 | In every history a run skips if and only if it may, and the newest backup has its whole signature, and the database has that signature now |
| Backup.SkipsOnSignature | backend/src/backup.rs:201-208 | In any directory white space around the signature of the newest backup does not matter, and a run that may not skip never does |
| BackupHistory.CutOffIsRedone | backend/src/backup.rs:199-208 | After a backup that was cut off the next run never skips, whatever the database is |
| BackupHistory.NewestAgreesIff | backend/src/backup.rs:199-236 | After every run that did not fail the newest backup has the signature dump of the database as it is; its full dump agrees outside the log tables if and only if the two dumps of the writing run agreed |
| BackupHistory.TornForever | backend/src/backup.rs:199-208 | When the two dumps of the first run disagree and the database then stays still, every later run skips and the only backup disagrees with the database for good |
| BackupHistory.TornInput | backend/src/backup.rs:199-208 | Such an input |
| BackupHistory.NewestRestores | backend/src/backup.rs:199-377 | After every history, restoring the newest file with fitting credentials imports a dump that agrees with the database outside the log tables, if the writing run's dumps agreed |
| BackupRemote.PushPath | backend/src/backup_remote.rs:222-245 | The path after a push: the file written, everything counted outside the newest ones deleted |
| BackupRemote.PushKeepsIff | backend/src/backup_remote.rs:222-245 | Which counted names a push leaves, exactly |
| BackupRemote.PushSurvivesIff | backend/src/backup_remote.rs:222-245 | The pushed file stays if and only if it is not counted, cannot be deleted, or fewer counted names than the retention cut to 1..100 sort above it |
| BackupRemote.CleanPushSurvives | backend/src/backup_remote.rs:222-245 | Among earlier backups the new one always stays |
| BackupRemote.CountedMeans | backend/src/backup_remote.rs:231-236 | Counted are exactly the names of the prefix that are no signatures |
| BackupRemote.OthersUntouched | backend/src/backup_remote.rs:231-243 | Files without the prefix and signatures are never touched |
| BackupRemote.LeftProbeCostsBackup | backend/src/backup_remote.rs:222-279 | A left-over connection probe costs each new backup its copy when one file is kept |
| Lifecycle.Database.RenewOne | backend/src/lifecycle.rs:65-161 | The tables after an attempt cut off after any number of its four statements, and the targets it then deploys to |
| Lifecycle.Database.RunAutoRenew | backend/src/lifecycle.rs:33-63 | The tables after a cycle over the candidates it selects, at most 50; it is one of the histories below and spares what is nothing to renew |
| Lifecycle.CycleTakesUp | backend/src/lifecycle.rs:34-49 | A cycle leaves alone every certificate that is revoked, not auto-renewing, no leaf or not within its lead, with all bindings to it; of the others, when they are at most 50, it attempts every one |
| Lifecycle.CycleCompletes | backend/src/lifecycle.rs:45-141 | After a cycle every completed attempt has retired its certificate and moved every binding to the new one, whatever happened to the others |
| Lifecycle.EveryStatement | backend/src/lifecycle.rs:65-161 | After every single statement no target points at a superseded certificate, and the number of auto-renewing certificates is the old one, plus one between the second and the fourth statement |
| Lifecycle.WholeHistory | backend/src/lifecycle.rs:33-161 | Over any number of cycles with interruptions anywhere both hold; the number grows by exactly one for each attempt cut off after its second or third statement |
| Lifecycle.CompletedRenewal | backend/src/lifecycle.rs:65-161 | A completed renewal moves every target of the old certificate to the new one, and no other target, and changes no other certificate |
| Lifecycle.DeploysTheOldTargets | backend/src/lifecycle.rs:143-160 | A completed renewal deploys to exactly the targets of the old certificate that are deployed to automatically |
| Lifecycle.DueAgain | backend/src/lifecycle.rs:34-71 | When the renewed certificate is due again: at once if and only if the renewal lead is not shorter than the capped lifetime |
| Lifecycle.LifetimeCapped | backend/src/lifecycle.rs:70-71 | A new lifetime is the old one in whole days, cut to 1..825, one day for anything shorter than two |
| Lifecycle.BindingDuringRenewal | backend/src/lifecycle.rs:119-141 | A binding to the old certificate made in the middle of a renewal is safe if and only if it comes before the re-pointing statement |
| Auth.LoginAttempts.Enforce | backend/src/auth.rs:243-270 | An attempt is allowed if and only if fewer than eight recorded failures of the last 15 minutes are of this account or this address |
| Auth.LoginAttempts.Record | backend/src/auth.rs:219-241 | One row is added and the history it belongs to is kept |
| Auth.LoginAttempts.Clear | backend/src/auth.rs:272-280 | Exactly the failures of one account go; every failure under another name stays |
| Auth.ClearForgets | backend/src/auth.rs:272-280 | Nothing of the account counts any more; successes and failures of other accounts stay, also those of the same address |
| Auth.WindowBound | backend/src/auth.rs:216-280 | With at most k attempts between gate and record, a window shorter than what the gate sees after rounding holds at most 7 + k failures of one account or address |
| Auth.WindowBoundIff | backend/src/auth.rs:216-280 | For every grain and every k > 0: all histories keep 7 + k in windows of a width if and only if the width is shorter than that |
| Auth.SequentialBoundIff | backend/migrations/022_auth_mfa_and_reset.sql:50-58 | For a grain that divides 15 minutes: one attempt at a time leaves at most eight in all windows of a width if and only if the width is below 15 minutes, or is 15 minutes and the grain one microsecond |
| Auth.BlockedMeans | backend/src/auth.rs:243-270 | What is counted: failures of the account plus failures of the address, those of both once |
| Auth.AgreesWithEitherIff | backend/src/auth.rs:241-270 | The gate agrees with the comment if and only if one of the two counts reaches eight or the union stays below |
| Auth.BlockedBelowBothThresholds | backend/src/auth.rs:243-270 | Four and four block although neither reached eight |
| Notifier.Notifications.RunOnce | backend/src/notifier.rs:96-239 | On any tables and cut off anywhere, a run adds exactly the notices that are due; one that is not cut off gives every key that is not revoked and expires by the threshold its notice, no other key a new one, and none a second |
| Notifier.Notifications.MaybeSendAlert | backend/src/machine_monitor.rs:549-722 | An alarming outcome alerts the webhook and the mail recipient, each with its own outcome and time, unless blank or alerted within the cooldown; nothing else is added |
| Notifier.AlertReaches | backend/src/machine_monitor.rs:594-637 | The two attempts of an alert reach both recipients that way |
| Notifier.ExpiryReaches | backend/src/notifier.rs:117-179 | The attempts of a run cover every expiring key that way |
| Notifier.MonitorCooldownIs | backend/src/machine_monitor.rs:573-578 | The cooldown of the monitor is one hour to one week, a day when nothing is set |
| Notifier.EveryoneNotified | backend/src/notifier.rs:187-239 | After a run everyone it reached has a notice recorded by it or within the cooldown before it |
| Notifier.EveryHistory | backend/src/notifier.rs:187-239 | In every history of both writers with their own cooldowns, from the empty table, notices for one item and recipient are more than the smallest cooldown used for the item apart, less what the column rounds away |
| Notifier.CooldownKept | backend/src/machine_monitor.rs:684-722 | In every such history they are at least the cooldown apart when the grain divides it |
| Notifier.StrictlyMoreIff | backend/src/notifier.rs:187-239 | All histories with one cooldown keep strictly more than it if and only if it is one less than a multiple of the grain; for a grain that divides it this is the grain of one microsecond alone |
| Migrations.Database.RunMigrations | backend/src/db.rs:16-55 | The schema after a start that runs through, stops at the first error, or is interrupted |
| Migrations.RestartsConverge | backend/src/db.rs:16-55 | For every orderly script: after any starts interrupted anywhere nothing fails, and the schema is that of one uninterrupted run up to the furthest point reached |
| Migrations.CompleteStart | backend/src/db.rs:16-55 | A complete start then reaches the schema of one clean run, and another one changes nothing |
| Migrations.DroppedStaysAway | backend/src/db.rs:16-55 | What a statement dropped is in no schema any later start can reach |
| Migrations.CheckedScript | backend/src/db.rs:16-55 | Files that find what they need in earlier ones form an orderly script that runs through |
| MigrationScript.ScriptChecked | backend/src/db.rs:17-45 | The 27 migration files are such a script |
| MigrationScript.UpgradesConverge | backend/src/db.rs:17-55 | All of the above for the actual migrations |
| MigrationScript.OldPortKeyStaysAway | backend/migrations/015_monitor_vhost.sql:1-5 | Once 015 is through, the old unique key of the monitored ports never returns |
| SqlText.ExecuteFile | backend/src/db.rs:47-54 | The statements executed for a file are the trimmed non-blank pieces between semicolons |
| SqlText.TrimIs | backend/src/db.rs:47-54 | Trimming takes the white space off both ends and nothing else |
| SqlText.SplitRecoversIff | backend/src/db.rs:47-54 | They are the intended statements if and only if none of these contains a semicolon, be it in a string or a comment |
| Startup.Applications.Start | backend/src/db.rs:56-229 | The applications after one start |
| Startup.SettleKeeps | backend/src/db.rs:61-69 | A start changes of a row only the sudo default of an untouched built-in and a blank format; an edited row keeps its sudo setting, a retired one stays retired |
| Startup.FormatFilled | backend/src/db.rs:208-227 | A blank format becomes that of the built-in of this slug, pkcs12 for iis and pem for the others; a set one stays |
| Startup.StartKeeps | backend/src/db.rs:188-229 | No start removes a row or duplicates a slug; a built-in is added if and only if no row has its slug |
| Startup.TwoStartsSettle | backend/src/main.rs:101-103 | From any table, the second start reaches a fixed point of all further starts |
| Startup.OneStartSettlesIff | backend/src/db.rs:56-69 | One start is enough if and only if all applications with the sudo default were there before it |
| Crypto.HexRoundTrip | backend/src/backup.rs:96-98 | Reading hexadecimal undoes printing it for every byte sequence |
| Crypto.HexIsLower | backend/src/backup.rs:96-98 | Digests are printed in lower case |
| Crypto.HexDistinguishes | backend/src/backup.rs:201-208 | Printed digests are equal only for equal digests, and trimming does not change them |
| Crypto.HexDenotes | backend/src/crypto.rs:1460-1474 | Hexadecimal digits of odd or even number and either case denote the same number as the bytes |
| Crypto.HexAcceptsIff | backend/src/crypto.rs:1460-1474 | For every text: accepted are exactly pairs of digits, the first of which may be a plus sign, between white space and "0x" and after padding to even length; this agrees with hexadecimal digits alone if and only if the text is not accepted with a plus sign in it |
| Crypto.HexDecorated | backend/src/crypto.rs:1460-1474 | White space around a number and any number of "0x" in front of it change nothing |
| Crypto.PlusAccepted | backend/src/crypto.rs:1460-1474 | A plus sign is accepted as a high digit |
| Crypto.PlusIsZero | backend/src/crypto.rs:1460-1474 | In every accepted text a plus sign stands for the digit zero |
| Crypto.MpintBitLength | backend/src/crypto.rs:756-763 | The result is the true bit length for any leading zero padding, up to the wrap of 32 bits |
| Crypto.MpintBitsExact | backend/src/crypto.rs:756-763 | Below 2^29 bytes nothing wraps |
| CertTree.BuildTlsTree | web/app.js:1738-1779 | The tree is empty without the root; else it has exactly the certificates of that root: intermediates first and by name, then the leaves of the root, then those of other parents, the leaves of every parent together and by name |
| CertTree.Placement | web/app.js:1738-1779 | A leaf sits under an intermediate of an id if and only if it names that id and such an intermediate exists, else directly under the root |
| CertTree.PlaceInRows | web/app.js:1738-1779 | In terms of the rows: a leaf sits under the intermediates whose id it names, and under the root if it names none of them |
| CertTree.Members | web/app.js:1738-1741 | The tree of a root has the certificates that name it; those that name none, or 0, are in the tree of root 1 |
| CertTree.TwoLevels | web/app.js:1738-1779 | At most two levels below the root |
| CertTree.GroupLeaves | web/app.js:1744-1751 | The groups hold every leaf once, by parent, each sorted by name |
| Base64Url.BufToB64url | web/app.js:1391-1398 | The loop returns the unpadded URL text of the buffer |
| Base64Url.UrlTextIs | web/app.js:1391-1398 | That text is letters of the URL alphabet for base-64 digits that denote the number of the bytes |
| Base64Url.B64urlToBuf | web/app.js:1383-1389 | The loop returns the bytes the text stands for, or fails where `atob` does |
| Base64.AtobIgnoresSpace | web/app.js:1383-1389 | White space anywhere changes nothing for the decoder |
| Base64Url.ArrayBufferToBase64 | web/app.js:2554-2562 | Encoding 0x8000 bytes at a time equals encoding the whole buffer |
| Base64.EncodeIs | web/app.js:2554-2562 | Standard base64: letters for digits that denote the number of the bytes, and equals signs up to a multiple of four |
| Base64Url.PaddingRestored | web/app.js:1383-1398 | The padding computed from the length is exactly what was stripped |
| Base64Url.UrlRoundTrip | web/app.js:1383-1398 | Every buffer survives the trip |
| Base64Url.DecodableLengths | web/app.js:1383-1389 | Text of the alphabet decodes if and only if its length is not 1 modulo 4 |

## Left out

- Cryptographic primitives, gzip, X.509, CRL and OpenSSH signing: library code, parameters where needed. AES-GCM's limit on plaintext size is not modelled.
- SSH, SFTP, SMTP, HTTP and TLS transports: only message lists and outcomes remain. `push_sftp` prunes by the same rule as `push_path`.
- File systems: paths are names; symbolic links, different spellings of one path and concurrent processes on the host are not modelled; the probe that creates the staging directory and the reload command change no modelled file.
- Upload.SudoTouchesLittle: a utility that reads a name as an option may change any file; the frame is stated for the case that it changes none.
- Upload.SudoMisses: the same.
- Upload.DirectDelivers: the same for `chmod`.
- Deploy.Engine.RunDeployment: the failure mail is not modelled.
- Notifier: runs of the two writers come one after the other; two runs that overlap may both see no recent notice.
- Resolving a target (credentials, chain building, escalation defaults) is one input; `resolve_escalation` would add only a case split.
- Lifecycle.WholeHistory: operators do not change the tables during the loop, except for the one binding of Lifecycle.BindingDuringRenewal.
- Auth: account names are compared exactly, while the database may ignore case; the purge of old rows is not modelled.
- The hourly pacing of scheduled backups, which reads file times.
- BackupCrypto.EncryptBackup: strings are UTF-8 bytes; the JSON reader takes what the writer produces, not all of RFC 8259 (white space between tokens, escapes above U+007F, null, numbers with sign, fraction or exponent).
- BackupCrypto.DecryptBackup: a header whose nonce is not 12 bytes long panics in the source and is an error here.
- BackupRestore.PassphraseRestores: a key PEM of Unicode white space only counts as given; the source trims it away.
- Crypto.HexToBytes: white space outside ASCII is not trimmed, and text outside ASCII is refused where slicing it would panic.
- Migrations: columns, indexes and keys that only their own CREATE TABLE mentions stand behind their table; a duplicate found while adding a unique key and the data statements of 025 and 026 are not modelled.
- Startup.Applications.Start: slugs are compared exactly, while the database may ignore case; paths of the built-ins are one opaque column.
- CertTree: `localeCompare` is any total, transitive comparison.
- Certbot, OIDC role mapping, WebAuthn, trust assessment, security monitor, recovery codes, message texts and all page rendering: foreign calls or short case splits that would only add easy members.
