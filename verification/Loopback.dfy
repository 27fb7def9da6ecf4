/** What a green loopback against the Rust pump says about the Kotlin pump. */
module Loopback {
  import opened Bytes
  import opened Envelopes
  import opened UrbCodec
  import opened UrbDriver
  import opened Refinement
  import R = UrbPump
  import K = UsbIpHosts

  /** The raw packets the driver sends: every scripted submit, then the unlink. */
  function ScriptPackets(script: seq<ScriptedUrb>): (ps: seq<bytes>)
    ensures |ps| == |script| + 1
  {
    seq(|script| + 1, k requires 0 <= k <= |script| => R.WriteCommand(Exchange(script, k)))
  }

  lemma PacketAt(script: seq<ScriptedUrb>, k: nat)
    requires k <= |script|
    ensures ScriptPackets(script)[k] == R.WriteCommand(Exchange(script, k))
  {
  }

  lemma PacketIsExact(cfg: Config, k: nat)
    requires Served(cfg) && k <= |cfg.script|
    ensures var raw := ScriptPackets(cfg.script)[k];
            Exact(raw) && R.ReadCommand(raw) == Some(Exchange(cfg.script, k))
  {
    hide R.ReadCommand, R.DispatchSubmit;
    var c := Exchange(cfg.script, k);
    if k < |cfg.script| {
      assert Expected(cfg.dev, cfg.script[k]);
    }
    R.CommandRoundTrip(c, []);
    assert R.WriteCommand(c) + [] == R.WriteCommand(c);
  }

  lemma LastOfMassStorage(vendor: u16, product: u16)
    ensures LastType(MassStorage(vendor, product).endpoints, 0x81) == Some(R.BulkXfer)
    ensures LastType(MassStorage(vendor, product).endpoints, 0x02) == Some(R.BulkXfer)
  {
    var eps := MassStorage(vendor, product).endpoints;
    assert eps[..1] == [eps[0]];
  }

  lemma ScriptAgrees(vendor: u16, product: u16, nExtra: u32, k: nat)
    requires k < |Script(nExtra)|
    ensures Agrees(MassStorage(vendor, product), CommandOf(Script(nExtra)[k]))
  {
    var urb := Script(nExtra)[k];
    if k < 7 {
      assert urb == BaseScript()[k];
    }
    EndpointsOfMassStorage(vendor, product);
    LastOfMassStorage(vendor, product);
    if k >= 4 {
      assert R.EpAddress(urb.direction, urb.ep) == if k == 5 then 0x02 else 0x81;
    }
  }

  /**
   * The default script stays inside the condition under which the Rust pump stands in for the Kotlin one: on the
   * fixture device both give the same replies up to the direction and ep words, for every number of extra URBs.
   */
  lemma DefaultScriptIsFaithful(vendor: u16, product: u16, id: u32, nExtra: u32)
    ensures var dev := MassStorage(vendor, product); var packets := ScriptPackets(Script(nExtra));
            && AllExact(packets)
            && SameRun(R.RunPump(Enveloped(id, packets), id, dev, R.NO_STATS),
                       K.Run(AsHost(dev, id), AsDevice(dev), K.State({}, 0), Concat(packets)))
  {
    hide Script, MassStorage, ScriptPackets, Expected, Agrees, R.RunPump, K.Run, R.ReadCommand, SameRun;
    var dev, packets := MassStorage(vendor, product), ScriptPackets(Script(nExtra));
    var cfg := Config(id, Script(nExtra), dev);
    forall k: nat | k < |cfg.script| ensures Expected(dev, cfg.script[k]) {
      ScriptExpected(vendor, product, nExtra, k);
    }
    forall k: nat | k < |packets|
      ensures Exact(packets[k]) && R.ReadCommand(packets[k]) == Some(Exchange(cfg.script, k))
    {
      PacketIsExact(cfg, k);
    }
    forall i: nat | i < |packets|
      ensures Agrees(dev, R.ReadCommand(packets[i]).value)
      ensures !MeetsUnlink({}, KCommandsOf(packets), i)
    {
      if i < |cfg.script| {
        ScriptAgrees(vendor, product, nExtra, i);
      } else {
        UnlinkAgrees(dev);
      }
    }
    FixtureRefinement(dev, id, packets);
  }

  /**
   * Bit-identical they are never: on the default script the bytes of the two pumps differ, for every number of
   * extra URBs, since its first request is an IN.
   */
  lemma DefaultScriptNotIdentical(vendor: u16, product: u16, id: u32, nExtra: u32)
    ensures var dev := MassStorage(vendor, product); var packets := ScriptPackets(Script(nExtra));
            AllExact(packets) &&
            var rust := R.RunPump(Enveloped(id, packets), id, dev, R.NO_STATS);
            var kotlin := K.Run(AsHost(dev, id), AsDevice(dev), K.State({}, 0), Concat(packets));
            && rust.finished.Some? && kotlin.end == K.Ran(K.NoHeader) && K.Sendable(kotlin.replies)
            && K.Wire(id, kotlin.replies) != FrameAll(R.UsbipEnvelopes(id, rust.replies))
  {
    hide Script, MassStorage, ScriptPackets, Expected, R.RunPump, K.Run, R.ReadCommand, RunAgrees;
    hide K.Wire, K.Sendable, FrameAll;
    var dev, packets := MassStorage(vendor, product), ScriptPackets(Script(nExtra));
    var cfg := Config(id, Script(nExtra), dev);
    forall k: nat | k < |cfg.script| ensures Expected(dev, cfg.script[k]) {
      ScriptExpected(vendor, product, nExtra, k);
    }
    DefaultScriptIsFaithful(vendor, product, id, nExtra);
    FixtureIdentity(dev, id, packets);
    PacketIsExact(cfg, 0);
    FirstIsIn(nExtra);
  }

  lemma FirstIsIn(nExtra: u32)
    ensures !Bare(CommandOf(Script(nExtra)[0]))
  {
  }

  lemma UnlinkAgrees(dev: R.FakeDevice)
    ensures Agrees(dev, R.Unlink(FINAL_UNLINK))
  {
  }

  // The driver cannot tell the two pumps apart

  /** Zeroing direction and ep changes neither the size of a reply nor the driver's verdict on it. */
  lemma BlankAccepted(id: u32, dev: R.FakeDevice, urb: ScriptedUrb)
    requires R.WellFormed(CommandOf(urb))
    ensures var reply := R.Reply(dev, CommandOf(urb));
            && |reply| >= URB_HEADER_LEN && |Blank(reply)| == |reply|
            && (AcceptsReply(id, urb, R.UsbipEnvelope(id, Blank(reply))) <==>
                  AcceptsReply(id, urb, R.UsbipEnvelope(id, reply)))
  {
    hide R.DispatchSubmit, AcceptsReply, EncodeRetSubmit, Blank;
    var c := CommandOf(urb);
    var res := R.DispatchSubmit(dev, c.cmd, c.body);
    var r := R.RetSubmitOf(c.cmd, res);
    ReplySize(dev, c);
    BlankRetSubmit(r, res.data);
    BlankSize(R.Reply(dev, c));
    ReplyIdentityIgnored(id, urb, r, r.(direction := 0, ep := 0), res.data);
  }

  lemma ReplySize(dev: R.FakeDevice, c: R.Command)
    requires R.WellFormed(c)
    ensures |R.Reply(dev, c)| >= URB_HEADER_LEN
  {
    hide R.DispatchSubmit;
  }

  lemma BlankSize(reply: bytes)
    requires |reply| >= URB_HEADER_LEN
    ensures |Blank(reply)| == |reply|
  {
  }

  lemma BlankUnlinkAccepted(id: u32, dev: R.FakeDevice)
    ensures var reply := R.Reply(dev, R.Unlink(FINAL_UNLINK));
            |reply| == URB_HEADER_LEN && AcceptsUnlink(R.UsbipEnvelope(id, Blank(reply)))
  {
    hide EncodeRetUnlink, Blank, ParseRetUnlink, EncodeUsbip, ParseUsbip;
    var r := R.RetUnlinkOf(FINAL_UNLINK);
    var blank := r.(direction := 0, ep := 0);
    R.ReplyAnswers(dev, R.Unlink(FINAL_UNLINK));
    BlankRetUnlink(r);
    BlankSize(R.Reply(dev, R.Unlink(FINAL_UNLINK)));
    RetUnlinkRoundTrip(blank, []);
    assert EncodeRetUnlink(blank) + [] == EncodeRetUnlink(blank);
    UsbipRoundTrip(UsbipFrame(id, EncodeRetUnlink(blank)), []);
  }

  /** Good Rust replies, blanked, are good replies. */
  lemma BlankRunAccepted(cfg: Config, rust: seq<bytes>, kotlin: seq<bytes>)
    requires Served(cfg) && |rust| == |kotlin| == |cfg.script| + 1
    requires forall i | 0 <= i < |rust| :: rust[i] == R.Reply(cfg.dev, Exchange(cfg.script, i))
    requires forall i | 0 <= i < |rust| :: |rust[i]| >= URB_HEADER_LEN && kotlin[i] == Blank(rust[i])
    ensures AllFit(R.UsbipEnvelopes(cfg.id, kotlin))
    ensures GoodReplies(cfg.id, cfg.script, 0, R.UsbipEnvelopes(cfg.id, kotlin))
  {
    hide AcceptsReply, AcceptsUnlink, Blank, R.Reply, Expected;
    var es := R.UsbipEnvelopes(cfg.id, kotlin);
    forall i | 0 <= i < |es| ensures Fits(es[i]) {
      BlankSize(rust[i]);
      RequestWorks(cfg, i);
      assert R.UsbipEnvelope(cfg.id, rust[i]) == Answer(cfg, i);
    }
    forall j | 0 <= j < |cfg.script| ensures AcceptsReply(cfg.id, cfg.script[j], es[j]) {
      RequestWorks(cfg, j);
      BlankAccepted(cfg.id, cfg.dev, cfg.script[j]);
      GoodAnswer(cfg, j);
    }
    BlankUnlinkAccepted(cfg.id, cfg.dev);
  }

  lemma GoodAnswer(cfg: Config, j: nat)
    requires Served(cfg) && j < |cfg.script|
    ensures AcceptsReply(cfg.id, cfg.script[j], R.UsbipEnvelope(cfg.id, R.Reply(cfg.dev, CommandOf(cfg.script[j]))))
  {
    hide AcceptsReply, R.Reply, JudgeSubmit;
    assert Expected(cfg.dev, cfg.script[j]);
    SubmitJudged(cfg.id, cfg.dev, cfg.script[j], NOTHING);
    RequestWorks(cfg, j);
    JudgeSubmitIff(cfg.id, cfg.script[j], R.UsbipEnvelope(cfg.id, R.Reply(cfg.dev, CommandOf(cfg.script[j]))), NOTHING);
  }

  /** The requests the driver writes are the script's packets. */
  lemma {:induction false} RequestsArePackets(cfg: Config, k: nat)
    requires k <= |cfg.script| + 1
    ensures Requests(cfg, k) == R.UsbipEnvelopes(cfg.id, ScriptPackets(cfg.script)[k..])
    decreases |cfg.script| + 1 - k
  {
    hide Request, Exchange;
    var ps := ScriptPackets(cfg.script);
    if k <= |cfg.script| {
      RequestsArePackets(cfg, k + 1);
      assert ps[k..] == [ps[k]] + ps[k + 1..];
      R.UsbipEnvelopesCons(cfg.id, ps[k], ps[k + 1..]);
      assert Request(cfg.id, cfg.script, k) == R.UsbipEnvelope(cfg.id, ps[k]) by { RequestIsPacket(cfg, k); }
    }
  }

  lemma RequestIsPacket(cfg: Config, k: nat)
    requires k <= |cfg.script|
    ensures Request(cfg.id, cfg.script, k) == R.UsbipEnvelope(cfg.id, ScriptPackets(cfg.script)[k])
  {
  }

  /** The Kotlin pump on a script's packets, over a device that behaves like the fixture. */
  function KotlinReplies(cfg: Config): seq<bytes> {
    K.Run(AsHost(cfg.dev, cfg.id), AsDevice(cfg.dev), K.State({}, 0), Concat(ScriptPackets(cfg.script))).replies
  }

  lemma KotlinRepliesGood(vendor: u16, product: u16, id: u32, nExtra: u32)
    ensures var cfg := Config(id, Script(nExtra), MassStorage(vendor, product));
            && Served(cfg) && AllFit(R.UsbipEnvelopes(id, KotlinReplies(cfg)))
            && GoodReplies(id, cfg.script, 0, R.UsbipEnvelopes(id, KotlinReplies(cfg)))
  {
    hide Script, MassStorage, ScriptPackets, Expected, R.RunPump, K.Run, Blank, FrameAll, Drive, GoodReplies,
         DriverAfter, PumpAfter, Requests, AnswerEnvelopes, RawAnswers, Request;
    var cfg := Config(id, Script(nExtra), MassStorage(vendor, product));
    var packets := ScriptPackets(cfg.script);
    forall k: nat | k < |cfg.script| ensures Expected(cfg.dev, cfg.script[k]) {
      ScriptExpected(vendor, product, nExtra, k);
    }
    DefaultScriptIsFaithful(vendor, product, id, nExtra);
    StreamsFitTogether(cfg);
    RequestsArePackets(cfg, 0);
    assert packets[0..] == packets;
    var rust := R.RunPump(Enveloped(id, packets), id, cfg.dev, R.NO_STATS).replies;
    RawAnswersAt(cfg, rust);
    BlankRunAccepted(cfg, rust, KotlinReplies(cfg));
  }

  /**
   * The driver against the Kotlin pump: `run_script`, reading what that pump writes in answer to the script's
   * packets, sends exactly those packets and succeeds with the statistics it has against the Rust pump.
   */
  lemma DriverPassesKotlin(vendor: u16, product: u16, id: u32, nExtra: u32)
    requires nExtra <= 67_108_862
    ensures var cfg := Config(id, Script(nExtra), MassStorage(vendor, product));
            && K.Sendable(KotlinReplies(cfg))
            && Drive(id, cfg.script, 0, K.Wire(id, KotlinReplies(cfg)), NOTHING)
               == DriveOutcome(Some(DriverStats(7 + nExtra, 7 + nExtra, 1, 1, 155 + 64 * nExtra)),
                               R.UsbipEnvelopes(id, ScriptPackets(cfg.script)))
  {
    hide Script, MassStorage, ScriptPackets, KotlinReplies, Expected, FrameAll, Drive, GoodReplies, DriverAfter,
         PumpAfter, Requests, Request, K.Wire, K.Sendable;
    var cfg := Config(id, Script(nExtra), MassStorage(vendor, product));
    Totals(vendor, product, id, nExtra, 7 + nExtra);
    UnlinkCounted(cfg);
    KotlinRepliesGood(vendor, product, id, nExtra);
    RequestsArePackets(cfg, 0);
    assert ScriptPackets(cfg.script)[0..] == ScriptPackets(cfg.script);
    var es := R.UsbipEnvelopes(id, KotlinReplies(cfg));
    K.WireIsFrames(id, KotlinReplies(cfg));
    DecodeFrames(es, []);
    NothingToDecode();
    assert FrameAll(es) + [] == FrameAll(es) && es + [] == es;
    forall j | 0 <= j <= |cfg.script| ensures Fits(Request(id, cfg.script, j)) {
      RequestWorks(cfg, j);
    }
    AtStart(cfg);
    DriveSucceedsIff(cfg, 0, FrameAll(es));
  }

  lemma AtStart(cfg: Config)
    ensures DriverAfter(cfg, 0) == NOTHING
  {
  }

  /** Replies that fill the driver's answers are the replies to its exchanges. */
  lemma RawAnswersAt(cfg: Config, replies: seq<bytes>)
    requires Served(cfg) && |replies| == |cfg.script| + 1
    requires R.UsbipEnvelopes(cfg.id, replies) == AnswerEnvelopes(cfg, 0)
    ensures forall i | 0 <= i < |replies| :: replies[i] == R.Reply(cfg.dev, Exchange(cfg.script, i))
  {
    hide R.Reply;
    forall i | 0 <= i < |replies| ensures replies[i] == R.Reply(cfg.dev, Exchange(cfg.script, i)) {
      AnswerAt(cfg, 0, i);
      RequestWorks(cfg, i);
      UsbipRoundTrip(UsbipFrame(cfg.id, replies[i]), []);
      UsbipRoundTrip(UsbipFrame(cfg.id, R.Reply(cfg.dev, Exchange(cfg.script, i))), []);
      assert R.UsbipEnvelopes(cfg.id, replies)[i] == R.UsbipEnvelope(cfg.id, replies[i]);
    }
  }

  lemma {:induction false} AnswerAt(cfg: Config, k: nat, i: nat)
    requires Served(cfg) && k <= i <= |cfg.script|
    ensures |AnswerEnvelopes(cfg, k)| == |cfg.script| + 1 - k && AnswerEnvelopes(cfg, k)[i - k] == Answer(cfg, i)
    decreases |cfg.script| - k
  {
    hide Answer;
    if k < |cfg.script| {
      AnswerAt(cfg, k + 1, if i == k then i + 1 else i);
    } else {
      assert AnswerEnvelopes(cfg, k + 1) == [];
    }
  }

  // Where the stand-in is not faithful

  /** GET_DESCRIPTOR(String): the fixture answers -EOPNOTSUPP, the Kotlin pump reports the stall as -ETIMEDOUT. */
  const STRING_REQUEST := R.Submit(
    CmdSubmit(1, 0, URB_DIR_IN, 0, 0, 18, 0, 0, 0, [0x80, 0x06, 0x00, 0x03, 0x00, 0x00, 18, 0x00]), [])

  lemma StringDescriptorDiffers(dev: R.FakeDevice, id: u32)
    ensures var packets := [R.WriteCommand(STRING_REQUEST)];
            && AllExact(packets)
            && !SameRun(R.RunPump(Enveloped(id, packets), id, dev, R.NO_STATS),
                        K.Run(AsHost(dev, id), AsDevice(dev), K.State({}, 0), Concat(packets)))
  {
    hide R.RunPump, K.Run, R.ReadCommand, SameRun;
    var packets := [R.WriteCommand(STRING_REQUEST)];
    R.CommandRoundTrip(STRING_REQUEST, []);
    assert R.WriteCommand(STRING_REQUEST) + [] == packets[0];
    FixtureRefinement(dev, id, packets);
    assert !Agrees(dev, R.ReadCommand(packets[0]).value);
  }
}
