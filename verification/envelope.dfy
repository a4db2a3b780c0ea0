/** The encrypted backup envelope: decrypting undoes creating, and accepts nothing else. */
module Envelope {
  import opened Contracts
  import opened Json
  import opened JsonRoundTrip
  import opened JsonCanonical
  import opened JsonText
  import opened Manifest
  import opened ManifestDump
  import opened ManifestEvidence
  import opened ManifestMeaning

  /** Authenticated encryption: key, nonce and text to ciphertext with its tag, and back. */
  datatype Cipher = Cipher(seal: (Text, Text, Text) -> Text, unseal: (Text, Text, Text) -> Option<Text>)

  ghost predicate Sound(cipher: Cipher) {
    forall key, iv, text :: cipher.unseal(key, iv, cipher.seal(key, iv, text)) == Some(text)
  }

  datatype Metadata = Metadata(
    runId: Text, sourceDatabaseIdentity: Text, schemaVersion: Value, createdAt: Text, expiresAt: Text,
      plaintextHash: Text)

  datatype BackupEnvelope = BackupEnvelope(
    version: int, algorithm: string, metadata: Metadata, manifest: IntegrityManifest, iv: Text, ciphertext: Text)

  datatype Reason = Unsupported | ChecksumMismatch | ManifestMismatch | AuthenticationFailed

  datatype Outcome = Restored(dump: LogicalDump) | Refused(reason: Reason)

  /** What the source fixes or computes elsewhere: the digest, the cipher, the collection names. */
  datatype Tools = Tools(hash: Digest, cipher: Cipher, collections: seq<Text>)

  ghost predicate Usable(tools: Tools) {
    Ideal(tools.hash) && Sound(tools.cipher) && DistinctTexts(tools.collections)
  }

  datatype Input = Input(runId: Text, sourceDatabaseIdentity: Text, key: Text, iv: Text, now: Text, expiresAt: Text)

  function CreateBackupEnvelope(tools: Tools, d: LogicalDump, manifest: IntegrityManifest,
      input: Input): BackupEnvelope {
    var text := Print(DumpValue(d));
    BackupEnvelope(
      1, "aes-256-gcm",
      Metadata(input.runId, input.sourceDatabaseIdentity, d.schemaVersion, input.now, input.expiresAt,
        tools.hash(text)),
      manifest, input.iv, tools.cipher.seal(input.key, input.iv, text))
  }

  function DecryptBackupEnvelope(tools: Tools, envelope: BackupEnvelope, key: Text): Outcome {
    if envelope.version != 1 || envelope.algorithm != "aes-256-gcm" then Refused(Unsupported)
    else
      match tools.cipher.unseal(key, envelope.iv, envelope.ciphertext)
      case None => Refused(AuthenticationFailed)
      case Some(text) =>
        if tools.hash(text) != envelope.metadata.plaintextHash then Refused(ChecksumMismatch)
        else CheckPlaintext(tools, text, envelope.manifest)
  }

  function CheckPlaintext(tools: Tools, text: Text, manifest: IntegrityManifest): Outcome {
    match Parse(text)
    case None => Refused(AuthenticationFailed)
    case Some(v) =>
      match ReadDump(v)
      case None => Refused(AuthenticationFailed)
      case Some(d) =>
        match CreateManifest(tools.hash, tools.collections, d)
        case None => Refused(AuthenticationFailed)
        case Some(actual) =>
          if actual.manifestHash != manifest.manifestHash ||
            Print(ManifestValue(actual)) != Print(ManifestValue(manifest))
          then Refused(ManifestMismatch)
          else Restored(d)
  }

  /** A proper dump always has a manifest, which depends on its normal form only: neither the order
      of the tables nor that of a row's keys matters. */
  lemma {:induction false} ManifestOfNormalForm(tools: Tools, d: LogicalDump)
    requires ProperDump(d)
    ensures CreateManifest(tools.hash, tools.collections, d) == Some(Build(tools.hash, tools.collections, NormDump(d)))
    ensures CreateManifest(tools.hash, tools.collections, NormDump(d)) ==
      CreateManifest(tools.hash, tools.collections, d)
  {
    hide Parse, Print, Build, ReadDump, DumpValue, NormDump, ProperDump;
    DumpRoundTrip(d);
    NormDumpIsNormal(d);
    NormalDumpIsFixed(NormDump(d));
    NormalDumpIsProper(NormDump(d));
    DumpRoundTrip(NormDump(d));
  }

  /** Dumps whose values agree up to the order of tables and keys have one manifest. */
  lemma {:induction false} ManifestIgnoresKeyOrder(tools: Tools, d: LogicalDump, e: LogicalDump)
    requires ProperDump(d) && ProperDump(e) && Same(DumpValue(d), DumpValue(e))
    ensures CreateManifest(tools.hash, tools.collections, d) == CreateManifest(tools.hash, tools.collections, e)
  {
    hide Parse, Print, Same, DumpValue, ReadDump, WellFormed;
    DumpIsWellFormed(d);
    DumpIsWellFormed(e);
    PrintAlike(DumpValue(d), DumpValue(e));
  }

  lemma CheckOfPrinted(tools: Tools, d: LogicalDump, manifest: IntegrityManifest)
    requires ProperDump(d)
    ensures var actual := Build(tools.hash, tools.collections, NormDump(d));
      CheckPlaintext(tools, Print(DumpValue(d)), manifest) ==
        if actual.manifestHash != manifest.manifestHash ||
          Print(ManifestValue(actual)) != Print(ManifestValue(manifest))
        then Refused(ManifestMismatch) else Restored(NormDump(d))
  {
    hide Parse, Print, Build, ReadDump, DumpValue, NormDump, ProperDump, CreateManifest, ManifestValue;
    DumpRoundTrip(d);
    ManifestOfNormalForm(tools, d);
  }

  /** Whatever dump is sealed under whichever dump's manifest: it is accepted exactly when the two
      share the evidence, and then comes back in normal form. */
  lemma {:induction false} SealedUnder(tools: Tools, d: LogicalDump, e: LogicalDump, input: Input)
    requires Usable(tools) && ProperDump(d) && ProperDump(e)
    ensures var envelope :=
        CreateBackupEnvelope(tools, e,
          CreateManifest(tools.hash, tools.collections, d).GetOr(IntegrityManifest([], [])), input);
      DecryptBackupEnvelope(tools, envelope, input.key) ==
        if SameEvidence(NormDump(d), NormDump(e)) then Restored(NormDump(e)) else Refused(ManifestMismatch)
  {
    hide Parse, Print, Build, ReadDump, DumpValue, NormDump, ProperDump, CreateManifest, ManifestValue, CheckPlaintext,
      SameEvidence;
    ManifestOfNormalForm(tools, d);
    CheckOfPrinted(tools, e, Build(tools.hash, tools.collections, NormDump(d)));
    NormDumpIsNormal(d);
    NormDumpIsNormal(e);
    OneManifest(tools.hash, tools.collections, NormDump(d), NormDump(e));
  }

  /** Decrypting an envelope built from a dump and its own manifest gives the normalised dump. */
  lemma {:induction false} EnvelopeRoundTrip(tools: Tools, d: LogicalDump, input: Input)
    requires Usable(tools) && ProperDump(d)
    ensures var envelope :=
        CreateBackupEnvelope(tools, d,
          CreateManifest(tools.hash, tools.collections, d).GetOr(IntegrityManifest([], [])), input);
      && DecryptBackupEnvelope(tools, envelope, input.key) == Restored(NormDump(d))
      && envelope.metadata.runId == input.runId && envelope.metadata.createdAt == input.now
      && envelope.metadata.expiresAt == input.expiresAt
      && envelope.metadata.sourceDatabaseIdentity == input.sourceDatabaseIdentity
  {
    hide Usable, ProperDump, CreateManifest, DecryptBackupEnvelope, NormDump, Print, DumpValue;
    SealedUnder(tools, d, d, input);
  }

  predicate Supported(envelope: BackupEnvelope) {
    envelope.version == 1 && envelope.algorithm == "aes-256-gcm"
  }

  predicate SameManifest(a: IntegrityManifest, b: IntegrityManifest) {
    a.manifestHash == b.manifestHash && Print(ManifestValue(a)) == Print(ManifestValue(b))
  }

  lemma CheckIsSupported(tools: Tools, text: Text, manifest: IntegrityManifest)
    ensures CheckPlaintext(tools, text, manifest) != Refused(Unsupported)
  {
    hide Parse, ReadDump, Print, CreateManifest, ManifestValue;
  }

  /** An envelope in which anything was changed, or which is read with another key: as long as the
      digest is the one the dump's own envelope has, the dump comes back whole or the envelope is refused,
      and which refusal it is says what was changed. */
  lemma {:induction false} TamperedEnvelope(tools: Tools, d: LogicalDump, input: Input, envelope: BackupEnvelope,
      key: Text)
    requires Usable(tools) && ProperDump(d)
    ensures
      var manifest := CreateManifest(tools.hash, tools.collections, d).GetOr(IntegrityManifest([], []));
      var genuine := CreateBackupEnvelope(tools, d, manifest, input);
      var text := tools.cipher.unseal(input.key, genuine.iv, genuine.ciphertext);
      var found := tools.cipher.unseal(key, envelope.iv, envelope.ciphertext);
      var outcome := DecryptBackupEnvelope(tools, envelope, key);
      && (outcome == Refused(Unsupported) <==> !Supported(envelope))
      && (Supported(envelope) && envelope.metadata.plaintextHash == genuine.metadata.plaintextHash ==>
        && (outcome == Refused(AuthenticationFailed) <==> found == None)
        && (outcome == Refused(ChecksumMismatch) <==> found != None && found != text)
        && (outcome == Refused(ManifestMismatch) <==> found == text && !SameManifest(envelope.manifest, manifest))
        && (outcome == Restored(NormDump(d)) <==> found == text && SameManifest(envelope.manifest, manifest)))
      && (Supported(envelope) && found == text && envelope.metadata.plaintextHash != genuine.metadata.plaintextHash ==>
        outcome == Refused(ChecksumMismatch))
      && (outcome.Restored? ==> found.Some? && tools.hash(found.value) == envelope.metadata.plaintextHash)
  {
    hide Parse, Print, Build, ReadDump, DumpValue, NormDump, ProperDump, CreateManifest, ManifestValue, CheckPlaintext;
    ManifestOfNormalForm(tools, d);
    CheckOfPrinted(tools, d, envelope.manifest);
    forall text ensures CheckPlaintext(tools, text, envelope.manifest) != Refused(Unsupported) {
      CheckIsSupported(tools, text, envelope.manifest);
    }
  }

  /** Whatever envelope is presented with a dump's manifest, a dump it yields shares the evidence. */
  lemma {:induction false} AcceptedIsGenuine(tools: Tools, d: LogicalDump, envelope: BackupEnvelope, key: Text)
    requires Usable(tools) && ProperDump(d)
    requires CreateManifest(tools.hash, tools.collections, d) == Some(envelope.manifest)
    requires DecryptBackupEnvelope(tools, envelope, key).Restored?
    ensures var r := DecryptBackupEnvelope(tools, envelope, key).dump;
      ProperDump(r) && SameEvidence(NormDump(d), NormDump(r))
  {
    hide Parse, Print, Build, ReadDump, DumpValue, NormDump, ProperDump, CreateManifest, ManifestValue, SameEvidence,
      Clean;
    var text := tools.cipher.unseal(key, envelope.iv, envelope.ciphertext).value;
    ParseIsClean(text);
    var v := Parse(text).value;
    ReadIsProper(v);
    var r := ReadDump(v).value;
    ManifestOfNormalForm(tools, d);
    ManifestOfNormalForm(tools, r);
    NormDumpIsNormal(d);
    NormDumpIsNormal(r);
    OneManifest(tools.hash, tools.collections, NormDump(d), NormDump(r));
  }
}
