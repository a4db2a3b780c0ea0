/** Agreement on runtime.json: any number of processes read it, or create it exclusively and write
    it, in any interleaving, with a crash possible anywhere. */
module RuntimeConfig {
  import opened Contracts
  import opened Json
  import opened JsonRoundTrip
  import opened JsonPrefix
  import Versions

  // The file's text ----------------------------------------------------------------------------

  /** The port is a number, or null for a port that was not one. */
  datatype Config = Config(formatVersion: Value, port: Value, databasePassword: Text, payloadSecret: Text,
    signerSecret: Text)

  const FORMAT_VERSION: Value := Number([49])

  const NEWLINE: Unit := 10

  function ConfigMembers(c: Config): seq<Keyed<Value>> {
    [Keyed(Ascii("formatVersion"), c.formatVersion), Keyed(Ascii("port"), c.port),
      Keyed(Ascii("databasePassword"), Str(c.databasePassword)),
     Keyed(Ascii("payloadSecret"), Str(c.payloadSecret)), Keyed(Ascii("rawEvidenceSignerSecret"), Str(c.signerSecret))]
  }

  /** What a process writes. */
  function ConfigText(c: Config): Text {
    Plain(Obj(ConfigMembers(c))) + [NEWLINE]
  }

  function FieldOf(members: seq<Keyed<Value>>, name: string): Value {
    Lookup(members, Ascii(name)).GetOr(Undefined)
  }

  /** A port's decimal text from 1024 to 65535. */
  predicate ValidPort(v: Value) {
    && v.Number? && (forall i :: 0 <= i < |v.number| ==> IsDigit(v.number[i]))
    && 4 <= |v.number| <= 5 && 1024 <= DigitsValue(v.number) <= 65535
  }

  predicate ValidSecret(v: Value) { v.Str? && |v.text| >= 32 }

  /** parseConfig. */
  function ParseConfig(v: Value): Option<Config> {
    if !v.Obj? then None
    else
      var version, port := FieldOf(v.members, "formatVersion"), FieldOf(v.members, "port");
      var password, payload, signer :=
        FieldOf(v.members, "databasePassword"), FieldOf(v.members, "payloadSecret"),
          FieldOf(v.members, "rawEvidenceSignerSecret");
      if version != FORMAT_VERSION || !ValidPort(port) || !ValidSecret(password) || !ValidSecret(payload) ||
        !ValidSecret(signer) then None
      else Some(Config(version, port, password.text, payload.text, signer.text))
  }

  /** Reading a file's text: an exception is None. */
  function ReadText(t: Text): Option<Config> {
    match Parse(t) case None => None case Some(v) => ParseConfig(v)
  }

  /** A process's own configuration, its port possibly not a number. */
  ghost predicate Proper(c: Config) {
    c.formatVersion == FORMAT_VERSION && (c.port == Null || (c.port.Number? && NumberText(c.port.number)))
  }

  lemma ConfigKeys(c: Config)
    ensures var m := ConfigMembers(c);
      |m| == 5 && |m[0].key| == 13 && |m[1].key| == 4 && |m[2].key| == 16 && |m[3].key| == 13 && |m[4].key| == 23
      && m[0].key != m[3].key && DistinctKeys(m)
  {
    var m := ConfigMembers(c);
    assert m[0].key[0] == 102 && m[3].key[0] == 112;
  }

  lemma {:induction false} FieldAt(members: seq<Keyed<Value>>, i: nat)
    requires DistinctKeys(members) && i < |members|
    ensures Lookup(members, members[i].key) == Some(members[i].value)
  {
    if i > 0 {
      assert members[0].key != members[i].key;
      FieldAt(members[1..], i - 1);
    }
  }

  lemma ConfigParsed(c: Config)
    requires Proper(c)
    ensures ParseConfig(Obj(ConfigMembers(c))) == None || ParseConfig(Obj(ConfigMembers(c))) == Some(c)
  {
    ConfigKeys(c);
    var m := ConfigMembers(c);
    FieldAt(m, 0);
    FieldAt(m, 1);
    FieldAt(m, 2);
    FieldAt(m, 3);
    FieldAt(m, 4);
    hide Lookup, ValidPort, Ascii;
  }

  lemma ConfigClean(c: Config)
    requires Proper(c)
    ensures Clean(Obj(ConfigMembers(c)))
  {
    ConfigKeys(c);
    hide Ascii;
    assert NumberText([49]) by { assert DropDigits([49]) == []; }
    assert Clean(Null);
  }

  /** A reader that finds the file partly written either throws or reads the whole configuration. */
  lemma {:induction false} PartialRead(c: Config, n: nat)
    requires Proper(c) && n <= |ConfigText(c)|
    ensures ReadText(ConfigText(c)[..n]) == None || ReadText(ConfigText(c)[..n]) == Some(c)
  {
    hide Parse, ParseConfig, Clean, Plain;
    ConfigClean(c);
    PrefixOfObject(ConfigMembers(c), n);
    ConfigParsed(c);
  }

  /** Which values are accepted as a configuration, by anyone's hand: format 1, a port of four or five
      digits within the range, and three secrets of 32 characters at least. */
  lemma {:induction false} AcceptedWhen(v: Value, c: Config)
    ensures ParseConfig(v) == Some(c) <==>
      && v.Obj? && c.formatVersion == Number(Ascii("1")) && c.port.Number?
      && (forall i :: 0 <= i < |c.port.number| ==> 48 <= c.port.number[i] <= 57)
      && 4 <= |c.port.number| <= 5 && 1024 <= DigitsValue(c.port.number) <= 65535
      && |c.databasePassword| >= 32 && |c.payloadSecret| >= 32 && |c.signerSecret| >= 32
      && Lookup(v.members, Ascii("formatVersion")) == Some(Number(Ascii("1")))
      && Lookup(v.members, Ascii("port")) == Some(c.port)
      && Lookup(v.members, Ascii("databasePassword")) == Some(Str(c.databasePassword))
      && Lookup(v.members, Ascii("payloadSecret")) == Some(Str(c.payloadSecret))
      && Lookup(v.members, Ascii("rawEvidenceSignerSecret")) == Some(Str(c.signerSecret))
  {
    assert Ascii("1") == [49];
    hide Lookup, Ascii;
  }

  // Reading a whole file ---------------------------------------------------------------------------

  lemma {:induction false} DigitsOf(s: string)
    requires forall i :: 0 <= i < |s| ==> Versions.IsDigit(s[i])
    ensures DigitsValue(Ascii(s)) == Versions.DecimalValue(s)
    ensures forall i :: 0 <= i < |s| ==> IsDigit(Ascii(s)[i])
  {
    if |s| > 0 {
      var n := |s| - 1;
      DigitsOf(s[..n]);
      assert Ascii(s)[..n] == Ascii(s[..n]);
    }
  }

  lemma DecimalLength(n: nat)
    requires 1024 <= n <= 65535
    ensures 4 <= |Versions.Decimal(n)| <= 5
  {
    assert |Versions.Decimal(n)| == 1 + |Versions.Decimal(n / 10)|;
    assert |Versions.Decimal(n / 10)| == 1 + |Versions.Decimal(n / 10 / 10)|;
    assert |Versions.Decimal(n / 10 / 10)| == 1 + |Versions.Decimal(n / 10 / 10 / 10)|;
    var last := n / 10 / 10 / 10;
    assert 1 <= last <= 65;
    assert last >= 10 ==> |Versions.Decimal(last)| == 1 + |Versions.Decimal(last / 10)|;
  }

  lemma PortIs(n: nat)
    ensures ValidPort(Number(Ascii(Versions.Decimal(n)))) <==> 1024 <= n <= 65535
  {
    DigitsOf(Versions.Decimal(n));
    if 1024 <= n <= 65535 { DecimalLength(n); }
  }

  /** A completely written file reads back as what was written exactly when the port is a whole number
      from 1024 to 65535 and no secret is shorter than 32; otherwise the reader throws. */
  lemma {:induction false} WholeRead(c: Config, n: nat)
    requires Proper(c) && (c.port == Null || c.port == Number(Ascii(Versions.Decimal(n))))
    ensures ReadText(ConfigText(c)) ==
      if c.port != Null && 1024 <= n <= 65535
         && |c.databasePassword| >= 32 && |c.payloadSecret| >= 32 && |c.signerSecret| >= 32
      then Some(c) else None
  {
    PortIs(n);
    ConfigClean(c);
    hide Parse, ParseConfig, Clean, Plain, ValidPort, Ascii;
    ParsePlain(Obj(ConfigMembers(c)), [NEWLINE]);
    NewlineParsed(Obj(ConfigMembers(c)));
    ConfigDecoded(c);
  }

  lemma NewlineParsed(v: Value)
    requires ParseValue(Plain(v) + [10]) == Done(v, [10])
    ensures Parse(Plain(v) + [10]) == Some(v)
  {
    hide ParseValue, Plain;
    assert SkipSpace([10]) == [];
  }

  lemma ConfigDecoded(c: Config)
    requires Proper(c)
    ensures ParseConfig(Obj(ConfigMembers(c))) ==
      if ValidPort(c.port) && |c.databasePassword| >= 32 && |c.payloadSecret| >= 32 && |c.signerSecret| >= 32
      then Some(c) else None
  {
    ConfigKeys(c);
    var m := ConfigMembers(c);
    FieldAt(m, 0);
    FieldAt(m, 1);
    FieldAt(m, 2);
    FieldAt(m, 3);
    FieldAt(m, 4);
    hide Lookup, ValidPort, Ascii;
  }

  // The processes ------------------------------------------------------------------------------

  /** Where a process is; `Writing` has the exclusive handle and has written that much. */
  datatype Process = Starting | Creating | Writing(written: nat) | Rereading | Returned(config: Config) | Threw

  /** `file` is the content on disk, if the file exists. */
  datatype State = State(file: Option<Text>, processes: seq<Process>)

  /** Read and reread; exclusive open; write some more; close; or stop, by an error or a crash. */
  datatype Step = Read(p: nat) | Open(p: nat) | Write(p: nat, more: nat) | Close(p: nat) | Stop(p: nat)

  function Answer(t: Text): Process {
    match ReadText(t) case Some(c) => Returned(c) case None => Threw
  }

  /** A step that the process cannot take changes nothing. Own configurations are made beforehand,
      one a process. */
  function Apply(own: seq<Config>, s: State, step: Step): State {
    if step.p >= |s.processes| || |own| != |s.processes| then s
    else
      var p := step.p;
      var process := s.processes[p];
      match step
      case Read(_) =>
        if process == Starting then
          match s.file
          case None => s.(processes := s.processes[p := Creating])
          case Some(t) => s.(processes := s.processes[p := Answer(t)])
        else if process == Rereading then
          match s.file
          case None => s.(processes := s.processes[p := Threw])
          case Some(t) => s.(processes := s.processes[p := Answer(t)])
        else s
      case Open(_) =>
        if process != Creating then s
        else if s.file.None? then State(Some([]), s.processes[p := Writing(0)])
        else s.(processes := s.processes[p := Rereading])
      case Write(_, more) =>
        if process.Writing? && process.written + more <= |ConfigText(own[p])|
        then State(Some(ConfigText(own[p])[..process.written + more]),
          s.processes[p := Writing(process.written + more)])
        else s
      case Close(_) =>
        if process.Writing? && process.written == |ConfigText(own[p])|
        then s.(processes := s.processes[p := Returned(own[p])])
        else s
      case Stop(_) =>
        if process.Returned? then s else s.(processes := s.processes[p := Threw])
  }

  function Run(own: seq<Config>, s: State, steps: seq<Step>): State {
    if |steps| == 0 then s else Apply(own, Run(own, s, steps[..|steps| - 1]), steps[|steps| - 1])
  }

  function Init(n: nat): State {
    State(None, seq(n, p => Starting))
  }

  ghost predicate AllProper(own: seq<Config>) {
    forall p :: 0 <= p < |own| ==> Proper(own[p])
  }

  // Agreement ----------------------------------------------------------------------------------

  /** The file is a prefix of what process w, its one creator, writes; whoever returned has w's
      configuration. */
  ghost predicate CreatedBy(own: seq<Config>, s: State, w: nat) {
    && w < |own| && |own| == |s.processes|
    && s.file.Some? && s.file.value <= ConfigText(own[w])
    && (forall p :: 0 <= p < |own| && s.processes[p].Writing? ==> p == w && |s.file.value| == s.processes[p].written)
    && (forall p :: 0 <= p < |own| && s.processes[p].Returned? ==> s.processes[p].config == own[w])
  }

  ghost predicate NotCreated(own: seq<Config>, s: State) {
    s.file == None && |own| == |s.processes| && forall p :: 0 <= p < |own| ==>
      !s.processes[p].Writing? && !s.processes[p].Returned?
  }

  ghost predicate Inv(own: seq<Config>, s: State) {
    NotCreated(own, s) || exists w :: CreatedBy(own, s, w)
  }

  lemma StepBefore(own: seq<Config>, s: State, step: Step)
    requires NotCreated(own, s)
    ensures NotCreated(own, Apply(own, s, step)) || (step.p < |own| && CreatedBy(own, Apply(own, s, step), step.p))
  {
    hide ConfigText, ReadText;
  }

  lemma LongerPrefix(t: Text, full: Text, more: nat)
    requires t <= full && |t| + more <= |full|
    ensures t <= full[..|t| + more] <= full
  {
  }

  lemma WriteAfter(own: seq<Config>, s: State, p: nat, more: nat, w: nat)
    requires CreatedBy(own, s, w) && p < |s.processes|
    ensures CreatedBy(own, Apply(own, s, Write(p, more)), w)
    ensures Apply(own, s, Write(p, more)).file.Some? && s.file.value <= Apply(own, s, Write(p, more)).file.value
  {
    hide ConfigText, ReadText;
    if s.processes[p].Writing? && s.processes[p].written + more <= |ConfigText(own[p])| {
      LongerPrefix(s.file.value, ConfigText(own[w]), more);
    }
  }

  /** Any other step leaves the file, and a reader gets the creator's configuration or throws. */
  lemma OtherAfter(own: seq<Config>, s: State, step: Step, w: nat)
    requires CreatedBy(own, s, w) && !step.Write? && step.p < |s.processes|
    requires ReadText(s.file.value) == None || ReadText(s.file.value) == Some(own[w])
    ensures CreatedBy(own, Apply(own, s, step), w) && Apply(own, s, step).file == s.file
  {
    hide ConfigText, ReadText;
  }

  /** Once created, the file stays its creator's: every step keeps it a prefix of the same text. */
  lemma StepAfter(own: seq<Config>, s: State, step: Step, w: nat)
    requires AllProper(own) && CreatedBy(own, s, w)
    ensures CreatedBy(own, Apply(own, s, step), w)
    ensures Apply(own, s, step).file.Some? && s.file.value <= Apply(own, s, step).file.value
  {
    if step.p < |s.processes| {
      if step.Write? {
        hide CreatedBy, Apply;
        WriteAfter(own, s, step.p, step.more, w);
      } else {
        var t := s.file.value;
        assert Proper(own[w]);
        assert t == ConfigText(own[w])[..|t|];
        PartialRead(own[w], |t|);
        hide CreatedBy, Apply, ConfigText, ReadText, Proper;
        OtherAfter(own, s, step, w);
      }
    }
  }

  lemma {:induction false} RunKeeps(own: seq<Config>, steps: seq<Step>)
    requires AllProper(own)
    ensures Inv(own, Run(own, Init(|own|), steps))
    decreases |steps|
  {
    hide Apply;
    if |steps| > 0 {
      var n := |steps| - 1;
      RunKeeps(own, steps[..n]);
      var s := Run(own, Init(|own|), steps[..n]);
      if NotCreated(own, s) {
        StepBefore(own, s, steps[n]);
      } else {
        var w :| CreatedBy(own, s, w);
        StepAfter(own, s, steps[n], w);
      }
    }
  }

  /** All processes that return, however they interleave and whoever crashes, hold one configuration. */
  lemma {:induction false} Agreement(own: seq<Config>, steps: seq<Step>, p: nat, q: nat)
    requires AllProper(own)
    requires var s := Run(own, Init(|own|), steps);
      p < |s.processes| && q < |s.processes| && s.processes[p].Returned? && s.processes[q].Returned?
    ensures var s := Run(own, Init(|own|), steps); s.processes[p].config == s.processes[q].config
  {
    hide CreatedBy;
    RunKeeps(own, steps);
    Agreed(own, Run(own, Init(|own|), steps));
  }

  lemma Agreed(own: seq<Config>, s: State)
    requires Inv(own, s)
    ensures forall p, q ::
      0 <= p < |s.processes| && 0 <= q < |s.processes| && s.processes[p].Returned? && s.processes[q].Returned? ==>
      s.processes[p].config == s.processes[q].config
  {
  }

  lemma {:induction false} RunAfter(own: seq<Config>, s: State, steps: seq<Step>, w: nat)
    requires AllProper(own) && CreatedBy(own, s, w)
    ensures CreatedBy(own, Run(own, s, steps), w) && s.file.Some? && Run(own, s, steps).file.Some?
    ensures s.file.value <= Run(own, s, steps).file.value
    decreases |steps|
  {
    hide Apply;
    if |steps| > 0 {
      RunAfter(own, s, steps[..|steps| - 1], w);
      StepAfter(own, Run(own, s, steps[..|steps| - 1]), steps[|steps| - 1], w);
    }
  }

  /** Once some process has returned, the file's content only ever is that configuration's text or
      grows into it; completed content never changes. */
  lemma {:induction false} CompletedNeverChanges(own: seq<Config>, steps: seq<Step>, later: seq<Step>, w: nat)
    requires AllProper(own) && CreatedBy(own, Run(own, Init(|own|), steps), w)
    ensures var before, after := Run(own, Init(|own|), steps), Run(own, Run(own, Init(|own|), steps), later);
      && CreatedBy(own, after, w) && w < |own|
      && (before.file == Some(ConfigText(own[w])) ==> after.file == before.file)
  {
    hide CreatedBy, ConfigText, Run, AllProper;
    var before := Run(own, Init(|own|), steps);
    var after := Run(own, before, later);
    CreatedFile(own, before, w);
    RunAfter(own, before, later, w);
    CreatedFile(own, after, w);
    if before.file == Some(ConfigText(own[w])) { SameText(ConfigText(own[w]), after.file.value); }
  }

  lemma CreatedFile(own: seq<Config>, s: State, w: nat)
    requires CreatedBy(own, s, w)
    ensures w < |own| && s.file.Some? && s.file.value <= ConfigText(own[w])
  {
  }

  lemma SameText(a: Text, b: Text)
    requires a <= b && b <= a
    ensures a == b
  {
  }

  /** A process that created the file returns only when the file holds all of its configuration, which it
      then does whatever follows. */
  lemma {:induction false} WriterLeavesWhole(own: seq<Config>, steps: seq<Step>, step: Step, later: seq<Step>, p: nat)
    requires AllProper(own) && p < |own|
    requires var s := Run(own, Init(|own|), steps);
      p < |s.processes| == |Apply(own, s, step).processes|
        && s.processes[p].Writing? && Apply(own, s, step).processes[p].Returned?
    ensures var s := Run(own, Init(|own|), steps);
      Run(own, Apply(own, s, step), later).file == Some(ConfigText(own[p]))
  {
    hide Run, Init, ConfigText, AllProper;
    var s := Run(own, Init(|own|), steps);
    var t := Apply(own, s, step);
    RunKeeps(own, steps);
    WriterIsCreator(own, s, p);
    WholeWhenReturned(own, s, step, p);
    StepAfter(own, s, step, p);
    RunAfter(own, t, later, p);
    CreatedFile(own, Run(own, t, later), p);
    SameText(ConfigText(own[p]), Run(own, t, later).file.value);
  }

  lemma WriterIsCreator(own: seq<Config>, s: State, p: nat)
    requires Inv(own, s) && p < |own| && p < |s.processes| && s.processes[p].Writing?
    ensures CreatedBy(own, s, p)
  {
    hide ConfigText;
    var w :| CreatedBy(own, s, w);
    assert p == w;
  }

  lemma WholeWhenReturned(own: seq<Config>, s: State, step: Step, p: nat)
    requires CreatedBy(own, s, p) && s.processes[p].Writing?
    requires |Apply(own, s, step).processes| == |s.processes| && Apply(own, s, step).processes[p].Returned?
    ensures Apply(own, s, step).file == Some(ConfigText(own[p]))
  {
    hide ConfigText, ReadText;
    var written, text := s.file.value, ConfigText(own[p]);
    assert written == text[..|written|] && text[..|text|] == text;
    assert step.p == p && step.Close? && |written| == |text|;
  }

  /** A lone process creates the file and returns its own configuration. */
  lemma {:induction false} FirstProcessReturns(c: Config)
    ensures Run([c], Init(1), [Read(0), Open(0), Write(0, |ConfigText(c)|), Close(0)]) ==
      State(Some(ConfigText(c)), [Returned(c)])
  {
    hide ConfigText, ReadText;
    var steps := [Read(0), Open(0), Write(0, |ConfigText(c)|), Close(0)];
    var s := Init(1);
    assert s == State(None, [Starting]);
    assert steps[..3][..2][..1][..0] == [] && steps[..3][..2][..1] == [Read(0)] &&
      steps[..3][..2] == [Read(0), Open(0)];
    assert Run([c], s, []) == s;
    assert Run([c], s, [Read(0)]) == State(None, [Creating]);
    assert Run([c], s, [Read(0), Open(0)]) == State(Some([]), [Writing(0)]);
    assert ConfigText(c)[..|ConfigText(c)|] == ConfigText(c);
    assert Run([c], s, steps[..3]) == State(Some(ConfigText(c)), [Writing(|ConfigText(c)|)]);
  }

  /** Whoever finds the file complete, at first or after losing the race to create it, returns what its
      creator wrote, if that can be read, and throws otherwise. */
  lemma {:induction false} LateProcessReturns(own: seq<Config>, steps: seq<Step>, w: nat, p: nat)
    requires var s := Run(own, Init(|own|), steps);
      CreatedBy(own, s, w) && s.file == Some(ConfigText(own[w])) && p < |own|
    requires ReadText(ConfigText(own[w])) in [Some(own[w]), None]
    ensures var s := Run(own, Init(|own|), steps);
      var ending := if ReadText(ConfigText(own[w])).Some? then Returned(own[w]) else Threw;
      && (s.processes[p] in [Starting, Rereading] ==>
            Apply(own, s, Read(p)) == s.(processes := s.processes[p := ending]))
      && (s.processes[p] == Creating ==>
            Run(own, s, [Open(p), Read(p)]) == s.(processes := s.processes[p := ending]))
  {
    hide ConfigText, ReadText;
    var s := Run(own, Init(|own|), steps);
    assert [Open(p), Read(p)][..1] == [Open(p)] && [Open(p)][..0] == [];
    if s.processes[p] == Creating {
      var reread := Apply(own, s, Open(p));
      assert reread == s.(processes := s.processes[p := Rereading]);
      assert Run(own, s, []) == s && Run(own, s, [Open(p)]) == reread;
      assert reread.processes[p := Answer(s.file.value)] == s.processes[p := Answer(s.file.value)];
    }
  }
}
