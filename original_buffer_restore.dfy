/**
 * The original-buffer restore element. For every buffer carrying an original
 * buffer meta it pushes that original downstream, re-timed with the incoming
 * buffer's timestamps and flags and carrying the incoming buffer's metas
 * (rescaled to the original's geometry where needed). It announces the
 * original's caps when they change, delivers the pending segment once, can
 * mirror its input on a request pad, and tunnels reconfigure events and a
 * query envelope upstream.
 *
 * GStreamer itself is abstract: `VideoInfo::from_caps` and the meta transforms
 * are functions in `Env`, the peers' answers to pushes and queries are inputs,
 * and `trace` records, in order, what the element pushed on which pad.
 */
module OriginalBufferRestore {
  import opened Common
  import opened Media

  /** The name of the envelope that carries an event upstream. */
  const FORWARD_UPSTREAM_EVENT := "gst-original-buffer-forward-upstream-event"
  /** The name of the custom query whose `query` field is answered by the src peer. */
  const FORWARD_QUERY := "gst-original-buffer-forward-query"
  /** The request pad template. */
  const MODIFIED_SRC_TEMPLATE := "modified_src"
  /** The stream id announced on a new modified pad. */
  const STREAM_ID := "originalbufferrestore"

  // ---------------------------------------------------------------------------
  // Events, queries and structures.

  datatype Value =
    | EventValue(event: Event)
    | QueryValue(query: Query)
    | BoolValue(b: bool)
    | IntValue(i: int)
    | StringValue(s: string)

  /** A named `gst::Structure` with its fields. */
  datatype Structure = Structure(name: string, fields: map<string, Value>)

  datatype Event =
    | CapsEvent(caps: Caps)
    | SegmentEvent(segment: seq<int>)
    | StreamStartEvent(streamId: string, groupId: nat)
    | ReconfigureEvent
    | CustomUpstreamEvent(structure: Structure)
      /** Any other event; built-in events have no structure whose name could be a tunnel's. */
    | OtherEvent(kind: string, named: Option<Structure>)

  datatype Query =
    | CustomQuery(structure: Structure)
    | OtherQuery(kind: string, data: seq<int>)

  /** `event.has_name(name)`. */
  predicate HasName(e: Event, name: string)
  {
    match e
    case CustomUpstreamEvent(s) => s.name == name
    case OtherEvent(_, s) => s.Some? && s.value.name == name
    case _ => false
  }

  /** The event the src pad sends upstream in place of `e`. */
  function Envelope(e: Event): Event
  {
    CustomUpstreamEvent(Structure(FORWARD_UPSTREAM_EVENT, map["event" := EventValue(e)]))
  }

  // ---------------------------------------------------------------------------
  // State and outputs.

  datatype CapsState = CapsState(caps: Caps, vinfo: Option<VideoInfo>)

  const DefaultCapsState := CapsState(EmptyCaps, None)

  datatype State = State(
    sinkpadCaps: CapsState,
    metaCaps: CapsState,
    sinkpadSegment: Option<Event>,
    modifiedSrcPadRequested: bool)

  const DefaultState := State(DefaultCapsState, DefaultCapsState, None, false)

  datatype FlowError = NotLinked | Flushing | Eos | NotNegotiated | Error | NotSupported
  datatype FlowResult = FlowOk | FlowErr(err: FlowError)

  datatype Pad = SinkPad | SrcPad | ModifiedSrcPad
  datatype Item = EventItem(event: Event) | BufferItem(buffer: Buffer)

  datatype Output =
      /** An item pushed out of one of the element's pads. */
    | Pushed(pad: Pad, item: Item)
      /** An event handed to the pad's default handler. */
    | Defaulted(pad: Pad, event: Event)
      /** The latency message posted when the modified pad appears. */
    | LatencyPosted

  /** The parts of GStreamer the element calls but does not define. */
  datatype Env = Env(
    /** `VideoInfo::from_caps`, failing on caps that are not raw video. */
    videoInfoFromCaps: Caps -> Option<VideoInfo>,
    /** The scale transform of a meta from the first geometry to the second, or failure. */
    scale: (Meta, VideoInfo, VideoInfo) -> Option<Meta>,
    /** The copy transform of a meta onto a buffer that already holds the given metas,
        both in `original().copy()` and in the meta loop. */
    copy: CopyTransform)

  /** What the peers answer to the pushes one buffer causes. */
  datatype ChainVerdicts = ChainVerdicts(capsAccepted: bool, segmentAccepted: bool, srcResult: FlowResult)

  datatype ChainOutcome = ChainOutcome(state: State, sent: seq<Output>, result: FlowResult)

  // ---------------------------------------------------------------------------
  // Rebuilding a buffer.

  /** Metas that never move to the output: the original buffer meta and metas
      tied to the input's memory. */
  predicate Excluded(m: Meta)
  {
    Api(m) == OriginalBufferApi || MemoryTag in Tags(m) || MemoryReferenceTag in Tags(m)
  }

  /** The scaled meta, when `m` is a size meta, both geometries are known and
      differ, and the scale transform succeeds. */
  function Rescaled(m: Meta, sinkV: Option<VideoInfo>, metaV: Option<VideoInfo>, env: Env): Option<Meta>
  {
    if SizeTag in Tags(m) && metaV.Some? && sinkV.Some?
       && (metaV.value.width != sinkV.value.width || metaV.value.height != sinkV.value.height)
    then env.scale(m, sinkV.value, metaV.value)
    else None
  }

  /** The output's metas after one input meta has been considered. */
  function TransplantOne(dest: seq<Meta>, m: Meta, sinkV: Option<VideoInfo>, metaV: Option<VideoInfo>, env: Env): seq<Meta>
  {
    if Excluded(m) then dest
    else match Rescaled(m, sinkV, metaV, env)
      case Some(scaled) => dest + [scaled]
      case None =>
        match env.copy(m, dest)
        case Some(copied) => dest + [copied]
        case None => dest
  }

  /** The output's metas after the input's metas, in order, have been considered. */
  function Transplant(dest: seq<Meta>, metas: seq<Meta>, sinkV: Option<VideoInfo>, metaV: Option<VideoInfo>, env: Env): seq<Meta>
  {
    if |metas| == 0 then dest
    else TransplantOne(Transplant(dest, metas[..|metas| - 1], sinkV, metaV, env), metas[|metas| - 1], sinkV, metaV, env)
  }

  /** `copy_into` with `FLAGS`: the input's flags, except that the original keeps
      its own tag-memory flag. */
  function CopiedFlags(from: set<BufferFlag>, into: set<BufferFlag>): set<BufferFlag>
  {
    (from - {TagMemory}) + (into * {TagMemory})
  }

  /** The buffer pushed for `inbuf`: a copy of the original, given the input's
      timing and flags, with the input's metas transplanted after the copied ones. */
  function Restored(inbuf: Buffer, original: Buffer, sinkV: Option<VideoInfo>, metaV: Option<VideoInfo>, env: Env): Buffer
  {
    var copy := BufferCopy(original, env.copy);
    copy.(timing := inbuf.timing,
          flags := CopiedFlags(inbuf.flags, copy.flags),
          metas := Transplant(copy.metas, inbuf.metas, sinkV, metaV, env))
  }

  // ---------------------------------------------------------------------------
  // `sink_chain` as a function of the state.

  /** The caps state the meta's caps give. */
  function CapsStateOf(caps: Caps, env: Env): CapsState
  {
    CapsState(caps, env.videoInfoFromCaps(caps))
  }

  /** The original buffer meta `inbuf.meta::<OriginalBufferMeta>()` finds. */
  function OriginalMeta(inbuf: Buffer): (r: Option<Meta>)
    ensures r.Some? ==> r.value.OriginalBufferMeta? && r.value in inbuf.metas
    ensures r.None? <==> forall i :: 0 <= i < |inbuf.metas| ==> !inbuf.metas[i].OriginalBufferMeta?
  {
    FindMeta(inbuf.metas, OriginalBufferApi)
  }

  /** The caps event pushed on src before the buffer, when the meta's caps differ
      from the cached ones. */
  function CapsSent(s: State, caps: Caps): seq<Output>
  {
    if s.metaCaps.caps != caps then [Pushed(SrcPad, EventItem(CapsEvent(caps)))] else []
  }

  /** The pending segment pushed on src before the buffer. */
  function SegmentSent(s: State): seq<Output>
  {
    if s.sinkpadSegment.Some? then [Pushed(SrcPad, EventItem(s.sinkpadSegment.value))] else []
  }

  /** The input mirrored on the modified pad, then the restored buffer on src. */
  function BuffersSent(s: State, modifiedPadPresent: bool, inbuf: Buffer, outbuf: Buffer): seq<Output>
  {
    (if s.modifiedSrcPadRequested && modifiedPadPresent then [Pushed(ModifiedSrcPad, BufferItem(inbuf))] else [])
    + [Pushed(SrcPad, BufferItem(outbuf))]
  }

  /** One call of `sink_chain`: the new state, what is pushed, and the result. */
  function Chain(s: State, modifiedPadPresent: bool, inbuf: Buffer, v: ChainVerdicts, env: Env): ChainOutcome
  {
    match OriginalMeta(inbuf)
    case None => ChainOutcome(s, [], FlowOk)
    case Some(ometa) =>
      var capsChanged := s.metaCaps.caps != ometa.caps;
      var capsSent := CapsSent(s, ometa.caps);
      if capsChanged && !v.capsAccepted then ChainOutcome(s, capsSent, FlowErr(NotNegotiated))
      else
        var s1 := if capsChanged then s.(metaCaps := CapsStateOf(ometa.caps, env)) else s;
        var outbuf := Restored(inbuf, ometa.original, s1.sinkpadCaps.vinfo, s1.metaCaps.vinfo, env);
        var s2 := s1.(sinkpadSegment := None);
        if s1.sinkpadSegment.Some? && !v.segmentAccepted then ChainOutcome(s2, capsSent + SegmentSent(s1), FlowErr(Error))
        else ChainOutcome(s2, capsSent + SegmentSent(s1) + BuffersSent(s2, modifiedPadPresent, inbuf, outbuf), v.srcResult)
  }

  // ---------------------------------------------------------------------------
  // What `sink_chain` guarantees for one buffer.

  /** A buffer without an original buffer meta is dropped: nothing is pushed and
      the state is untouched. */
  lemma ChainWithoutMeta(s: State, present: bool, inbuf: Buffer, v: ChainVerdicts, env: Env)
    requires forall i :: 0 <= i < |inbuf.metas| ==> !inbuf.metas[i].OriginalBufferMeta?
    ensures Chain(s, present, inbuf, v, env) == ChainOutcome(s, [], FlowOk)
  {
  }

  /** The restored buffer has the original's payload, the input's timestamps and
      the input's flags except tag-memory, which the copy of the original has
      lost; its metas start with the ones copying the original attached, at most
      one per meta of the original, and gain at most one per input meta. */
  lemma RestoredContent(inbuf: Buffer, original: Buffer, sinkV: Option<VideoInfo>, metaV: Option<VideoInfo>, env: Env)
    ensures var b := Restored(inbuf, original, sinkV, metaV, env);
            var copied := CopiedMetas(original.metas, env.copy);
            && b.payload == original.payload && b.timing == inbuf.timing
            && (forall f :: f != TagMemory ==> (f in b.flags <==> f in inbuf.flags))
            && TagMemory !in b.flags
            && |copied| <= |original.metas|
            && |copied| <= |b.metas| <= |copied| + |inbuf.metas|
            && b.metas[..|copied|] == copied
  {
    BufferCopyShape(original, env.copy);
    TransplantExtends(CopiedMetas(original.metas, env.copy), inbuf.metas, sinkV, metaV, env);
  }

  /** When the copy transform attaches every meta of the original as it is, the
      restored buffer's metas start with the original's own. */
  lemma RestoredKeepsVerbatimMetas(inbuf: Buffer, original: Buffer, sinkV: Option<VideoInfo>, metaV: Option<VideoInfo>, env: Env)
    requires forall k :: 0 <= k < |original.metas| ==>
               env.copy(original.metas[k], original.metas[..k]) == Some(original.metas[k])
    ensures var b := Restored(inbuf, original, sinkV, metaV, env);
            |original.metas| <= |b.metas| && b.metas[..|original.metas|] == original.metas
  {
    VerbatimCopy(original.metas, env.copy);
    TransplantExtends(original.metas, inbuf.metas, sinkV, metaV, env);
  }

  /** A buffer with an original buffer meta whose pushes are all accepted gets
      its restored buffer pushed on src as the last item, after the caps (when
      they changed) and the pending segment, and the result is the src push's. */
  lemma ChainDelivers(s: State, present: bool, inbuf: Buffer, v: ChainVerdicts, env: Env)
    requires OriginalMeta(inbuf).Some? && v.capsAccepted && v.segmentAccepted
    ensures var o := Chain(s, present, inbuf, v, env);
            var ometa := OriginalMeta(inbuf).value;
            var s1 := o.state;
            && o.result == v.srcResult
            && s1.metaCaps == (if s.metaCaps.caps != ometa.caps then CapsStateOf(ometa.caps, env) else s.metaCaps)
            && s1 == s.(metaCaps := s1.metaCaps, sinkpadSegment := None)
            && |o.sent| > 0
            && o.sent[|o.sent| - 1] == Pushed(SrcPad, BufferItem(Restored(inbuf, ometa.original, s.sinkpadCaps.vinfo, s1.metaCaps.vinfo, env)))
            && (Pushed(ModifiedSrcPad, BufferItem(inbuf)) in o.sent <==> s.modifiedSrcPadRequested && present)
  {
  }

  /** Rejected caps stop the buffer before anything else is pushed or changed. */
  lemma ChainCapsRejected(s: State, present: bool, inbuf: Buffer, v: ChainVerdicts, env: Env)
    requires OriginalMeta(inbuf).Some? && s.metaCaps.caps != OriginalMeta(inbuf).value.caps && !v.capsAccepted
    ensures Chain(s, present, inbuf, v, env)
            == ChainOutcome(s, [Pushed(SrcPad, EventItem(CapsEvent(OriginalMeta(inbuf).value.caps)))], FlowErr(NotNegotiated))
  {
  }

  /** A rejected segment is still consumed, and no buffer is pushed on any pad. */
  lemma ChainSegmentRejected(s: State, present: bool, inbuf: Buffer, v: ChainVerdicts, env: Env)
    requires OriginalMeta(inbuf).Some? && s.sinkpadSegment.Some? && !v.segmentAccepted
    requires s.metaCaps.caps != OriginalMeta(inbuf).value.caps ==> v.capsAccepted
    ensures var o := Chain(s, present, inbuf, v, env);
            && o.result == FlowErr(Error)
            && o.state.sinkpadSegment == None
            && o.sent[|o.sent| - 1] == Pushed(SrcPad, EventItem(s.sinkpadSegment.value))
            && forall k :: 0 <= k < |o.sent| ==> !o.sent[k].item.BufferItem?
  {
  }

  // ---------------------------------------------------------------------------
  // The metas of the rebuilt buffer.

  /** The metas of a concatenation are considered one after the other. */
  lemma {:induction false} TransplantAppend(dest: seq<Meta>, a: seq<Meta>, b: seq<Meta>, sinkV: Option<VideoInfo>, metaV: Option<VideoInfo>, env: Env)
    ensures Transplant(dest, a + b, sinkV, metaV, env) == Transplant(Transplant(dest, a, sinkV, metaV, env), b, sinkV, metaV, env)
  {
    if |b| == 0 {
      assert a + b == a;
    } else {
      var n := |b| - 1;
      assert (a + b)[..|a + b| - 1] == a + b[..n];
      assert (a + b)[|a + b| - 1] == b[n];
      TransplantAppend(dest, a, b[..n], sinkV, metaV, env);
    }
  }

  /** The original's own metas stay first, and each input meta adds at most one. */
  lemma {:induction false} TransplantExtends(dest: seq<Meta>, metas: seq<Meta>, sinkV: Option<VideoInfo>, metaV: Option<VideoInfo>, env: Env)
    ensures var r := Transplant(dest, metas, sinkV, metaV, env);
            |dest| <= |r| <= |dest| + |metas| && r[..|dest|] == dest
  {
    if |metas| > 0 {
      var prev := Transplant(dest, metas[..|metas| - 1], sinkV, metaV, env);
      TransplantExtends(dest, metas[..|metas| - 1], sinkV, metaV, env);
      var r := Transplant(dest, metas, sinkV, metaV, env);
      assert r == prev || r == prev + [r[|r| - 1]];
      assert r[..|prev|] == prev;
      assert r[..|dest|] == prev[..|dest|];
    }
  }

  /** The original buffer meta and memory-tagged metas leave no trace: the output
      is as if they were not on the input at all. */
  lemma ExcludedIgnored(dest: seq<Meta>, a: seq<Meta>, m: Meta, b: seq<Meta>, sinkV: Option<VideoInfo>, metaV: Option<VideoInfo>, env: Env)
    requires Excluded(m)
    ensures Transplant(dest, a + [m] + b, sinkV, metaV, env) == Transplant(dest, a + b, sinkV, metaV, env)
  {
    TransplantAppend(dest, a + [m], b, sinkV, metaV, env);
    TransplantAppend(dest, a, [m], sinkV, metaV, env);
    TransplantAppend(dest, a, b, sinkV, metaV, env);
    assert [m][..0] == [];
  }

  /** A buffer whose metas are all excluded yields the original's metas only. */
  lemma {:induction false} OnlyExcludedMetas(dest: seq<Meta>, metas: seq<Meta>, sinkV: Option<VideoInfo>, metaV: Option<VideoInfo>, env: Env)
    requires forall k :: 0 <= k < |metas| ==> Excluded(metas[k])
    ensures Transplant(dest, metas, sinkV, metaV, env) == dest
  {
    if |metas| > 0 {
      OnlyExcludedMetas(dest, metas[..|metas| - 1], sinkV, metaV, env);
    }
  }

  /** A size meta on a 640x360 input whose original is 1280x720 is replaced by
      the scale transform's result, and the copy transform is not used. */
  lemma RescaleExample(m: Meta, scaled: Meta, env: Env)
    requires m == TaggedMeta("GstVideoCropMetaAPI", {SizeTag, VideoTag}, [])
    requires env.scale(m, VideoInfo("I420", 640, 360), VideoInfo("I420", 1280, 720)) == Some(scaled)
    ensures Transplant([], [m], Some(VideoInfo("I420", 640, 360)), Some(VideoInfo("I420", 1280, 720)), env) == [scaled]
  {
    assert [m][..0] == [];
  }

  /** With equal geometries a size meta is only copied. */
  lemma SameGeometryCopies(m: Meta, dest: seq<Meta>, vi: VideoInfo, env: Env)
    requires !Excluded(m)
    ensures TransplantOne(dest, m, Some(vi), Some(vi), env)
            == if env.copy(m, dest).Some? then dest + [env.copy(m, dest).value] else dest
  {
  }

  /** The outcome of the copy transform alone for a surviving meta. */
  function CopyOutcome(dest: seq<Meta>, m: Meta, env: Env): seq<Meta>
  {
    if env.copy(m, dest).Some? then dest + [env.copy(m, dest).value] else dest
  }

  /** The scale-or-copy rule for every surviving meta: the scale transform's
      result is attached exactly when the meta has the size tag, both geometries
      are known, their width or height differ and the scale succeeds; in every
      other case (a geometry missing, no size tag, equal width and height in
      another format, a failed scale) the meta gets only the copy attempt. */
  lemma ScaleOrCopy(dest: seq<Meta>, m: Meta, sinkV: Option<VideoInfo>, metaV: Option<VideoInfo>, env: Env)
    requires !Excluded(m)
    ensures var scales := SizeTag in Tags(m) && sinkV.Some? && metaV.Some?
                          && (sinkV.value.width != metaV.value.width || sinkV.value.height != metaV.value.height)
                          && env.scale(m, sinkV.value, metaV.value).Some?;
            && (scales ==> TransplantOne(dest, m, sinkV, metaV, env) == dest + [env.scale(m, sinkV.value, metaV.value).value])
            && (!scales ==> TransplantOne(dest, m, sinkV, metaV, env) == CopyOutcome(dest, m, env))
  {
  }

  // ---------------------------------------------------------------------------
  // Several buffers in a row.

  function CountWhere(out: seq<Output>, p: Output -> bool): nat
  {
    if |out| == 0 then 0 else CountWhere(out[..|out| - 1], p) + (if p(out[|out| - 1]) then 1 else 0)
  }

  lemma {:induction false} CountWhereAppend(a: seq<Output>, b: seq<Output>, p: Output -> bool)
    ensures CountWhere(a + b, p) == CountWhere(a, p) + CountWhere(b, p)
  {
    if |b| == 0 {
      assert a + b == a;
    } else {
      var n := |b| - 1;
      assert (a + b)[..|a + b| - 1] == a + b[..n];
      CountWhereAppend(a, b[..n], p);
    }
  }

  lemma CountWhereOne(o: Output, p: Output -> bool)
    ensures CountWhere([o], p) == if p(o) then 1 else 0
  {
    assert [o][..0] == [];
  }

  predicate IsCapsAnnouncement(o: Output)
  {
    o.Pushed? && o.pad == SrcPad && o.item.EventItem? && o.item.event.CapsEvent?
  }

  predicate IsSegmentDelivery(o: Output)
  {
    o.Pushed? && o.pad == SrcPad && o.item.EventItem? && o.item.event.SegmentEvent?
  }

  /** The pending event, if any, is a segment (the sink pad only stores segments). */
  predicate PendingIsSegment(s: State)
  {
    s.sinkpadSegment.Some? ==> s.sinkpadSegment.value.SegmentEvent?
  }

  /** `sink_chain` called on each buffer in turn, with no event in between. */
  function Run(s: State, present: bool, bufs: seq<Buffer>, vs: seq<ChainVerdicts>, env: Env): (State, seq<Output>)
    requires |bufs| == |vs|
  {
    if |bufs| == 0 then (s, [])
    else
      var n := |bufs| - 1;
      var (s1, out1) := Run(s, present, bufs[..n], vs[..n], env);
      var o := Chain(s1, present, bufs[n], vs[n], env);
      (o.state, out1 + o.sent)
  }

  /** Outputs that all carry buffers. */
  predicate AllBuffers(out: seq<Output>)
  {
    forall k :: 0 <= k < |out| ==> out[k].Pushed? && out[k].item.BufferItem?
  }

  lemma BuffersSentAreBuffers(s: State, present: bool, inbuf: Buffer, outbuf: Buffer)
    ensures AllBuffers(BuffersSent(s, present, inbuf, outbuf))
  {
    var last := [Pushed(SrcPad, BufferItem(outbuf))];
    if s.modifiedSrcPadRequested && present {
      var both := [Pushed(ModifiedSrcPad, BufferItem(inbuf))] + last;
      assert both == [Pushed(ModifiedSrcPad, BufferItem(inbuf)), Pushed(SrcPad, BufferItem(outbuf))];
    } else {
      assert BuffersSent(s, present, inbuf, outbuf) == last;
    }
  }

  /** What one buffer with an original buffer meta sends: the caps part alone
      when the caps are refused, otherwise the caps part, the pending segment and
      then only buffers. */
  lemma ChainParts(s: State, present: bool, inbuf: Buffer, v: ChainVerdicts, env: Env)
    requires OriginalMeta(inbuf).Some?
    ensures var o := Chain(s, present, inbuf, v, env);
            var caps := OriginalMeta(inbuf).value.caps;
            var head := CapsSent(s, caps) + SegmentSent(s);
            if s.metaCaps.caps != caps && !v.capsAccepted then o.sent == CapsSent(s, caps) && o.state == s
            else
              && o.state.sinkpadSegment == None
              && |head| <= |o.sent| && o.sent == head + o.sent[|head|..] && AllBuffers(o.sent[|head|..])
  {
    var o := Chain(s, present, inbuf, v, env);
    var m := OriginalMeta(inbuf).value;
    var caps := m.caps;
    var head := CapsSent(s, caps) + SegmentSent(s);
    if !(s.metaCaps.caps != caps && !v.capsAccepted) {
      var s1 := if s.metaCaps.caps != caps then s.(metaCaps := CapsStateOf(caps, env)) else s;
      assert SegmentSent(s1) == SegmentSent(s);
      var outbuf := Restored(inbuf, m.original, s1.sinkpadCaps.vinfo, s1.metaCaps.vinfo, env);
      var s2 := s1.(sinkpadSegment := None);
      var bufs := BuffersSent(s2, present, inbuf, outbuf);
      if s1.sinkpadSegment.Some? && !v.segmentAccepted {
        assert o.sent == head;
        assert o.sent[|head|..] == [];
      } else {
        assert o.sent == head + bufs;
        assert o.sent[|head|..] == bufs;
        BuffersSentAreBuffers(s2, present, inbuf, outbuf);
      }
    }
  }

  /** One buffer announces caps exactly when it carries an original buffer meta
      with caps other than the cached ones. */
  lemma ChainCapsCount(s: State, present: bool, inbuf: Buffer, v: ChainVerdicts, env: Env)
    requires PendingIsSegment(s)
    ensures var o := Chain(s, present, inbuf, v, env);
            && CountWhere(o.sent, IsCapsAnnouncement)
               == (if OriginalMeta(inbuf).Some? && s.metaCaps.caps != OriginalMeta(inbuf).value.caps then 1 else 0)
            && PendingIsSegment(o.state)
  {
    var o := Chain(s, present, inbuf, v, env);
    if OriginalMeta(inbuf).Some? {
      var caps := OriginalMeta(inbuf).value.caps;
      ChainParts(s, present, inbuf, v, env);
      PartCounts(s, caps);
      if !(s.metaCaps.caps != caps && !v.capsAccepted) {
        var head := CapsSent(s, caps) + SegmentSent(s);
        CountWhereAppend(CapsSent(s, caps), SegmentSent(s), IsCapsAnnouncement);
        SplitCount(o.sent, |head|, IsCapsAnnouncement);
      }
    }
  }

  /** Counting outputs whose tail holds only buffers counts the head alone. */
  lemma SplitCount(out: seq<Output>, n: nat, p: Output -> bool)
    requires p == IsCapsAnnouncement || p == IsSegmentDelivery
    requires n <= |out| && out == out[..n] + out[n..] && AllBuffers(out[n..])
    ensures CountWhere(out, p) == CountWhere(out[..n], p)
  {
    NoneCounted(out[n..], p);
    CountWhereAppend(out[..n], out[n..], p);
  }

  /** How many caps and segment deliveries each part of a chain call holds. */
  lemma PartCounts(s: State, caps: Caps)
    ensures CountWhere(CapsSent(s, caps), IsCapsAnnouncement) == if s.metaCaps.caps != caps then 1 else 0
    ensures CountWhere(CapsSent(s, caps), IsSegmentDelivery) == 0
    ensures PendingIsSegment(s) ==> CountWhere(SegmentSent(s), IsCapsAnnouncement) == 0
    ensures CountWhere(SegmentSent(s), IsSegmentDelivery) <= if s.sinkpadSegment.Some? then 1 else 0
  {
    if s.metaCaps.caps != caps {
      CountWhereOne(CapsSent(s, caps)[0], IsCapsAnnouncement);
      CountWhereOne(CapsSent(s, caps)[0], IsSegmentDelivery);
    }
    if s.sinkpadSegment.Some? {
      CountWhereOne(SegmentSent(s)[0], IsCapsAnnouncement);
      CountWhereOne(SegmentSent(s)[0], IsSegmentDelivery);
    }
  }

  /** Outputs that carry buffers are neither caps nor segment deliveries. */
  lemma {:induction false} NoneCounted(out: seq<Output>, p: Output -> bool)
    requires p == IsCapsAnnouncement || p == IsSegmentDelivery
    requires AllBuffers(out)
    ensures CountWhere(out, p) == 0
  {
    if |out| > 0 {
      NoneCounted(out[..|out| - 1], p);
    }
  }

  /** Announce-once: buffers whose original buffer metas all carry the same caps,
      with every caps push accepted, announce those caps once at most, and only
      when they differ from the cached ones. */
  lemma {:induction false} AnnounceOnce(s: State, present: bool, bufs: seq<Buffer>, vs: seq<ChainVerdicts>, env: Env, c: Caps)
    requires |bufs| == |vs| && PendingIsSegment(s)
    requires forall k :: 0 <= k < |bufs| ==> OriginalMeta(bufs[k]).Some? && OriginalMeta(bufs[k]).value.caps == c
    requires forall k :: 0 <= k < |vs| ==> vs[k].capsAccepted
    ensures CountWhere(Run(s, present, bufs, vs, env).1, IsCapsAnnouncement)
            == if |bufs| > 0 && s.metaCaps.caps != c then 1 else 0
    ensures |bufs| > 0 ==> Run(s, present, bufs, vs, env).0.metaCaps.caps == c
    ensures PendingIsSegment(Run(s, present, bufs, vs, env).0)
  {
    if |bufs| > 0 {
      var n := |bufs| - 1;
      AnnounceOnce(s, present, bufs[..n], vs[..n], env, c);
      var (s1, out1) := Run(s, present, bufs[..n], vs[..n], env);
      var o := Chain(s1, present, bufs[n], vs[n], env);
      ChainCapsCount(s1, present, bufs[n], vs[n], env);
      CountWhereAppend(out1, o.sent, IsCapsAnnouncement);
    }
  }

  /** One buffer delivers the pending segment at most once and leaves none
      pending once it has. */
  lemma ChainSegmentCount(s: State, present: bool, inbuf: Buffer, v: ChainVerdicts, env: Env)
    ensures var o := Chain(s, present, inbuf, v, env);
            CountWhere(o.sent, IsSegmentDelivery) + (if o.state.sinkpadSegment.Some? then 1 else 0)
            <= if s.sinkpadSegment.Some? then 1 else 0
  {
    var o := Chain(s, present, inbuf, v, env);
    if OriginalMeta(inbuf).Some? {
      var caps := OriginalMeta(inbuf).value.caps;
      ChainParts(s, present, inbuf, v, env);
      PartCounts(s, caps);
      if !(s.metaCaps.caps != caps && !v.capsAccepted) {
        var head := CapsSent(s, caps) + SegmentSent(s);
        CountWhereAppend(CapsSent(s, caps), SegmentSent(s), IsSegmentDelivery);
        SplitCount(o.sent, |head|, IsSegmentDelivery);
      }
    }
  }

  /** Segment delivery: over any run of buffers, the segments delivered plus the
      one still pending never exceed the one pending at the start. */
  lemma {:induction false} SegmentAtMostOnce(s: State, present: bool, bufs: seq<Buffer>, vs: seq<ChainVerdicts>, env: Env)
    requires |bufs| == |vs|
    ensures var (s', out) := Run(s, present, bufs, vs, env);
            CountWhere(out, IsSegmentDelivery) + (if s'.sinkpadSegment.Some? then 1 else 0)
            <= if s.sinkpadSegment.Some? then 1 else 0
  {
    if |bufs| > 0 {
      var n := |bufs| - 1;
      SegmentAtMostOnce(s, present, bufs[..n], vs[..n], env);
      var (s1, out1) := Run(s, present, bufs[..n], vs[..n], env);
      var o := Chain(s1, present, bufs[n], vs[n], env);
      ChainSegmentCount(s1, present, bufs[n], vs[n], env);
      CountWhereAppend(out1, o.sent, IsSegmentDelivery);
    }
  }

  // ---------------------------------------------------------------------------
  // `sink_query`.

  /** A custom query named as the forwarding envelope whose `query` field holds a query. */
  predicate IsForwardQuery(q: Query)
  {
    q.CustomQuery? && q.structure.name == FORWARD_QUERY
    && "query" in q.structure.fields && q.structure.fields["query"].QueryValue?
  }

  /** The sink pad's query handler: a forwarding envelope has its inner query
      answered by the src pad's peer, the answer and the peer's verdict written
      back into the envelope, and counts as handled; every other query goes to
      the default handler. Both handlers may rewrite the query they answer. */
  function SinkQuery(q: Query, peerQuery: Query -> (bool, Query), queryDefault: Query -> (bool, Query)): (r: (bool, Query))
    ensures IsForwardQuery(q) ==>
              var inner := q.structure.fields["query"].query;
              var answer := peerQuery(inner);
              && r.0
              && r.1.CustomQuery? && r.1.structure.name == FORWARD_QUERY
              && r.1.structure.fields.Keys == q.structure.fields.Keys + {"result"}
              && r.1.structure.fields["query"] == QueryValue(answer.1)
              && r.1.structure.fields["result"] == BoolValue(answer.0)
              && forall k :: k in q.structure.fields && k != "query" && k != "result" ==>
                   r.1.structure.fields[k] == q.structure.fields[k]
    ensures !IsForwardQuery(q) ==> r == queryDefault(q)
  {
    if IsForwardQuery(q) then
      var fields := q.structure.fields;
      var answer := peerQuery(fields["query"].query);
      var fields' := (fields - {"query"})["query" := QueryValue(answer.1)]["result" := BoolValue(answer.0)];
      (true, CustomQuery(q.structure.(fields := fields')))
    else queryDefault(q)
  }

  /** The answered envelope is again a forwarding envelope, holding the answer. */
  lemma ForwardQueryAnswered(q: Query, peerQuery: Query -> (bool, Query), queryDefault: Query -> (bool, Query))
    requires IsForwardQuery(q)
    ensures var r := SinkQuery(q, peerQuery, queryDefault);
            IsForwardQuery(r.1) && r.1.structure.fields["query"].query == peerQuery(q.structure.fields["query"].query).1
  {
  }

  // ---------------------------------------------------------------------------
  // `src_event`.

  /** Whether the src pad tunnels `e` upstream instead of handling it. */
  predicate Tunnelled(e: Event)
  {
    e.ReconfigureEvent? || HasName(e, FORWARD_UPSTREAM_EVENT)
  }

  /** An envelope carries the event it wraps, and is itself tunnelled again by
      the next restore element upstream, so envelopes nest rather than leak. */
  lemma EnvelopeCarries(e: Event)
    ensures Envelope(e).structure.fields["event"] == EventValue(e)
    ensures Tunnelled(Envelope(e)) && Envelope(e) != e
  {
    assert Envelope(e).structure.fields["event"] == EventValue(e);
  }

  // ---------------------------------------------------------------------------
  // The element's invariant.

  /** A cached caps state holds the geometry of its caps, or is the empty default. */
  predicate CapsConsistent(cs: CapsState, env: Env)
  {
    cs == DefaultCapsState || cs.vinfo == env.videoInfoFromCaps(cs.caps)
  }

  predicate OnModifiedPad(o: Output)
  {
    o.Pushed? && o.pad == ModifiedSrcPad
  }

  predicate StartsModifiedStream(o: Output)
  {
    o.Pushed? && o.pad == ModifiedSrcPad && o.item.EventItem? && o.item.event.StreamStartEvent?
  }

  /** A stream-start has gone out on the modified pad. */
  function Started(t: seq<Output>): bool
  {
    |t| > 0 && (Started(t[..|t| - 1]) || StartsModifiedStream(t[|t| - 1]))
  }

  /** Nothing reaches the modified pad before its stream-start. */
  function StreamOrdered(t: seq<Output>): bool
  {
    |t| == 0 || (StreamOrdered(t[..|t| - 1]) && (OnModifiedPad(t[|t| - 1]) ==> Started(t)))
  }

  /** Once started, a stream stays started. */
  lemma {:induction false} StartedExtend(a: seq<Output>, b: seq<Output>)
    requires Started(a)
    ensures Started(a + b)
  {
    if |b| > 0 {
      var n := |b| - 1;
      assert (a + b)[..|a + b| - 1] == a + b[..n];
      StartedExtend(a, b[..n]);
    } else {
      assert a + b == a;
    }
  }

  /** Appending outputs keeps the order when the stream has started or when
      none of them is on the modified pad. */
  lemma {:induction false} StreamOrderedExtend(a: seq<Output>, b: seq<Output>)
    requires StreamOrdered(a)
    requires Started(a) || forall k :: 0 <= k < |b| ==> !OnModifiedPad(b[k])
    ensures StreamOrdered(a + b)
  {
    if |b| > 0 {
      var n := |b| - 1;
      assert (a + b)[..|a + b| - 1] == a + b[..n];
      StreamOrderedExtend(a, b[..n]);
      if Started(a) {
        StartedExtend(a, b);
      }
    } else {
      assert a + b == a;
    }
  }

  /** The modified pad only ever carries what `sink_chain` mirrors when the pad
      is present. */
  lemma ChainModifiedOnlyWhenPresent(s: State, present: bool, inbuf: Buffer, v: ChainVerdicts, env: Env)
    requires PendingIsSegment(s)
    ensures var o := Chain(s, present, inbuf, v, env);
            forall k :: 0 <= k < |o.sent| && OnModifiedPad(o.sent[k]) ==>
              present && o.sent[k] == Pushed(ModifiedSrcPad, BufferItem(inbuf))
  {
  }

  /** `sink_chain` keeps the caches consistent and only ever holds segments pending. */
  lemma ChainKeepsCaches(s: State, present: bool, inbuf: Buffer, v: ChainVerdicts, env: Env)
    requires CapsConsistent(s.metaCaps, env) && PendingIsSegment(s)
    ensures var o := Chain(s, present, inbuf, v, env);
            && CapsConsistent(o.state.metaCaps, env) && PendingIsSegment(o.state)
            && o.state.sinkpadCaps == s.sinkpadCaps
            && o.state.modifiedSrcPadRequested == s.modifiedSrcPadRequested
  {
  }

  // ---------------------------------------------------------------------------
  // The element.

  /** The metas of the output after the input's metas have been transplanted,
      in the order the input holds them. */
  method TransplantMetas(dest: seq<Meta>, metas: seq<Meta>, sinkV: Option<VideoInfo>, metaV: Option<VideoInfo>, env: Env)
    returns (out: seq<Meta>)
    ensures out == Transplant(dest, metas, sinkV, metaV, env)
  {
    out := dest;
    for i := 0 to |metas|
      invariant out == Transplant(dest, metas[..i], sinkV, metaV, env)
    {
      var m := metas[i];
      assert metas[..i + 1][..i] == metas[..i];
      if Api(m) == OriginalBufferApi {
        continue;
      }
      if MemoryTag in Tags(m) || MemoryReferenceTag in Tags(m) {
        continue;
      }
      if SizeTag in Tags(m) && metaV.Some? && sinkV.Some? {
        if metaV.value.width != sinkV.value.width || metaV.value.height != sinkV.value.height {
          var scaled := env.scale(m, sinkV.value, metaV.value);
          if scaled.Some? {
            out := out + [scaled.value];
            continue;
          }
        }
      }
      var copied := env.copy(m, out);
      if copied.Some? {
        out := out + [copied.value];
      }
    }
    assert metas[..|metas|] == metas;
  }

  /** The buffer `sink_chain` pushes: `original().copy()` with the input's
      timestamps and flags, then the input's metas transplanted onto it. */
  method RestoreBuffer(inbuf: Buffer, original: Buffer, sinkV: Option<VideoInfo>, metaV: Option<VideoInfo>, env: Env)
    returns (outbuf: Buffer)
    ensures outbuf == Restored(inbuf, original, sinkV, metaV, env)
  {
    var copy := BufferCopy(original, env.copy);
    outbuf := copy.(timing := inbuf.timing, flags := CopiedFlags(inbuf.flags, copy.flags));
    var metas := TransplantMetas(outbuf.metas, inbuf.metas, sinkV, metaV, env);
    outbuf := outbuf.(metas := metas);
  }

  /** The steps of `sink_chain` on a copy of the state: the new state, what it
      pushes, in order, and the flow result. */
  method ChainStep(s: State, modifiedPadPresent: bool, inbuf: Buffer, v: ChainVerdicts, env: Env)
    returns (s': State, sent: seq<Output>, r: FlowResult)
    ensures ChainOutcome(s', sent, r) == Chain(s, modifiedPadPresent, inbuf, v, env)
  {
    s', sent := s, [];
    var ometa := OriginalMeta(inbuf);
    if ometa.None? {
      return s', sent, FlowOk;
    }
    var m := ometa.value;
    if s'.metaCaps.caps != m.caps {
      sent := [Pushed(SrcPad, EventItem(CapsEvent(m.caps)))];
      if !v.capsAccepted {
        return s', sent, FlowErr(NotNegotiated);
      }
      s' := s'.(metaCaps := CapsStateOf(m.caps, env));
    }
    var outbuf := RestoreBuffer(inbuf, m.original, s'.sinkpadCaps.vinfo, s'.metaCaps.vinfo, env);
    var pending := s'.sinkpadSegment;
    s' := s'.(sinkpadSegment := None);
    if pending.Some? {
      sent := sent + [Pushed(SrcPad, EventItem(pending.value))];
      if !v.segmentAccepted {
        return s', sent, FlowErr(Error);
      }
    }
    var mirrored: seq<Output> := [];
    if s'.modifiedSrcPadRequested && modifiedPadPresent {
      mirrored := [Pushed(ModifiedSrcPad, BufferItem(inbuf))];
    }
    sent := sent + (mirrored + [Pushed(SrcPad, BufferItem(outbuf))]);
    r := v.srcResult;
  }

  /** One `sink_chain` call keeps the element invariant. */
  lemma ChainKeepsInvariant(s: State, present: bool, t: seq<Output>, inbuf: Buffer, v: ChainVerdicts, env: Env)
    requires CapsConsistent(s.metaCaps, env) && PendingIsSegment(s)
    requires StreamOrdered(t) && (present ==> Started(t))
    ensures var o := Chain(s, present, inbuf, v, env);
            && CapsConsistent(o.state.metaCaps, env) && PendingIsSegment(o.state)
            && o.state.sinkpadCaps == s.sinkpadCaps
            && StreamOrdered(t + o.sent) && (present ==> Started(t + o.sent))
  {
    var o := Chain(s, present, inbuf, v, env);
    ChainModifiedOnlyWhenPresent(s, present, inbuf, v, env);
    ChainKeepsCaches(s, present, inbuf, v, env);
    if present {
      StartedExtend(t, o.sent);
    }
    StreamOrderedExtend(t, o.sent);
  }

  datatype PadRequest = NoPad | NewModifiedPad | AddPadFailed

  datatype StateChange =
    | NullToReady | ReadyToPaused | PausedToPlaying | PlayingToPaused | PausedToReady | ReadyToNull

  datatype StateChangeSuccess = Success | Async | NoPreroll

  datatype StateChangeError = StateChangeFailure

  class Element {
    /** The GStreamer functions the element calls. */
    const env: Env
    /** `self.state`. */
    var state: State
    /** Whether the element holds a pad named `modified_src_pad`. */
    var modifiedPadPresent: bool
    /** Everything the element has pushed, handed to a default handler or posted. */
    var trace: seq<Output>
    /** Set once a handler has panicked; from then on every pad function returns
        its fallback and does nothing else. */
    var panicked: bool

    ghost predicate Valid()
      reads this
    {
      && CapsConsistent(state.sinkpadCaps, env)
      && CapsConsistent(state.metaCaps, env)
      && PendingIsSegment(state)
      && StreamOrdered(trace)
      && (modifiedPadPresent ==> Started(trace))
    }

    constructor (env: Env)
      ensures Valid()
      ensures this.env == env && state == DefaultState && !modifiedPadPresent && trace == [] && !panicked
    {
      this.env := env;
      state := DefaultState;
      modifiedPadPresent := false;
      trace := [];
      panicked := false;
    }

    /** `sink_chain`, with `v` the peers' answers to the pushes it makes. */
    method SinkChain(inbuf: Buffer, v: ChainVerdicts) returns (r: FlowResult)
      requires Valid()
      modifies this
      ensures Valid()
      ensures old(panicked) ==> r == FlowErr(Error) && state == old(state) && trace == old(trace)
      ensures !old(panicked) ==>
                var o := Chain(old(state), old(modifiedPadPresent), inbuf, v, env);
                state == o.state && trace == old(trace) + o.sent && r == o.result
      ensures modifiedPadPresent == old(modifiedPadPresent) && panicked == old(panicked)
    {
      if panicked {
        return FlowErr(Error);
      }
      ChainKeepsInvariant(state, modifiedPadPresent, trace, inbuf, v, env);
      var s', sent;
      s', sent, r := ChainStep(state, modifiedPadPresent, inbuf, v, env);
      state := s';
      trace := trace + sent;
    }

    /** `sink_event`: caps and segments are kept (and mirrored on the modified
        pad when it was requested and is present), never forwarded on src; every
        other event goes to the default handler, whose verdict is returned. */
    method SinkEvent(e: Event, defaultResult: bool) returns (handled: bool)
      requires Valid()
      modifies this
      ensures Valid()
      ensures modifiedPadPresent == old(modifiedPadPresent) && panicked == old(panicked)
      ensures old(panicked) ==> !handled && state == old(state) && trace == old(trace)
      ensures !old(panicked) ==>
              var mirrored := if old(state).modifiedSrcPadRequested && modifiedPadPresent
                              then [Pushed(ModifiedSrcPad, EventItem(e))] else [];
              match e
              case CapsEvent(c) =>
                state == old(state).(sinkpadCaps := CapsStateOf(c, env)) && trace == old(trace) + mirrored && handled
              case SegmentEvent(_) =>
                state == old(state).(sinkpadSegment := Some(e)) && trace == old(trace) + mirrored && handled
              case _ =>
                state == old(state) && trace == old(trace) + [Defaulted(SinkPad, e)] && handled == defaultResult
    {
      if panicked {
        return false;
      }
      var mirrored: seq<Output> := [];
      if state.modifiedSrcPadRequested && modifiedPadPresent {
        mirrored := [Pushed(ModifiedSrcPad, EventItem(e))];
      }
      match e {
        case CapsEvent(c) =>
          state := state.(sinkpadCaps := CapsStateOf(c, env));
          Append(mirrored);
          handled := true;
        case SegmentEvent(_) =>
          state := state.(sinkpadSegment := Some(e));
          Append(mirrored);
          handled := true;
        case _ =>
          Append([Defaulted(SinkPad, e)]);
          handled := defaultResult;
      }
    }

    /** Records outputs; the stream order holds when the stream has started or
        none of them goes to the modified pad. */
    method Append(out: seq<Output>)
      requires StreamOrdered(trace) && (modifiedPadPresent ==> Started(trace))
      requires modifiedPadPresent || forall k :: 0 <= k < |out| ==> !OnModifiedPad(out[k])
      modifies this
      ensures trace == old(trace) + out
      ensures StreamOrdered(trace) && (modifiedPadPresent ==> Started(trace))
      ensures state == old(state) && modifiedPadPresent == old(modifiedPadPresent) && panicked == old(panicked)
    {
      if modifiedPadPresent {
        StartedExtend(trace, out);
      }
      StreamOrderedExtend(trace, out);
      trace := trace + out;
    }

    /** `src_event`: reconfigure events and forwarding envelopes travel upstream
        in a new envelope and the sink peer's verdict is returned; every other
        event goes to the default handler. */
    method SrcEvent(e: Event, sinkAccepted: bool, defaultResult: bool) returns (handled: bool)
      requires Valid()
      modifies this
      ensures Valid()
      ensures state == old(state) && modifiedPadPresent == old(modifiedPadPresent) && panicked == old(panicked)
      ensures old(panicked) ==> !handled && trace == old(trace)
      ensures !old(panicked) && Tunnelled(e) ==>
                trace == old(trace) + [Pushed(SinkPad, EventItem(Envelope(e)))] && handled == sinkAccepted
      ensures !old(panicked) && !Tunnelled(e) ==> trace == old(trace) + [Defaulted(SrcPad, e)] && handled == defaultResult
    {
      if panicked {
        return false;
      }
      if e.ReconfigureEvent? || HasName(e, FORWARD_UPSTREAM_EVENT) {
        Append([Pushed(SinkPad, EventItem(Envelope(e)))]);
        handled := sinkAccepted;
      } else {
        Append([Defaulted(SrcPad, e)]);
        handled := defaultResult;
      }
    }

    /** `request_new_pad`: only the `modified_src` template gives a pad, and only
        once; the pad starts its stream before the latency message is posted.
        When a pad of that name is still present (the flag was cleared by a
        reset), adding it fails, the `expect` on it panics and nothing is
        announced. */
    method RequestNewPad(templateName: string, groupId: nat) returns (r: PadRequest)
      requires Valid()
      modifies this
      ensures Valid()
      ensures templateName != MODIFIED_SRC_TEMPLATE || old(state).modifiedSrcPadRequested ==>
                && r == NoPad && state == old(state) && trace == old(trace)
                && modifiedPadPresent == old(modifiedPadPresent) && panicked == old(panicked)
      ensures templateName == MODIFIED_SRC_TEMPLATE && !old(state).modifiedSrcPadRequested ==>
                && state == old(state).(modifiedSrcPadRequested := true)
                && modifiedPadPresent
                && (if old(modifiedPadPresent) then r == AddPadFailed && trace == old(trace) && panicked
                    else r == NewModifiedPad && panicked == old(panicked)
                         && trace == old(trace) + [Pushed(ModifiedSrcPad, EventItem(StreamStartEvent(STREAM_ID, groupId))), LatencyPosted])
    {
      if templateName != MODIFIED_SRC_TEMPLATE || state.modifiedSrcPadRequested {
        return NoPad;
      }
      state := state.(modifiedSrcPadRequested := true);
      if modifiedPadPresent {
        panicked := true;
        return AddPadFailed;
      }
      var start := [Pushed(ModifiedSrcPad, EventItem(StreamStartEvent(STREAM_ID, groupId)))];
      assert (trace + start)[..|trace + start| - 1] == trace;
      assert Started(trace + start) && StreamOrdered(trace + start);
      trace := trace + start;
      modifiedPadPresent := true;
      Append([LatencyPosted]);
      r := NewModifiedPad;
    }

    /** `release_pad`: the parent class, `gst::Element`, has no release function
        of its own, so only the child-removed notification happens. The pad stays
        on the element, where `child_by_name` still finds it for mirroring and a
        later request after a reset fails to add it again; the request flag stays. */
    method ReleasePad()
      requires Valid()
      ensures Valid()
      ensures modifiedPadPresent == old(modifiedPadPresent) && state == old(state)
              && trace == old(trace) && panicked == old(panicked)
    {
    }

    /** `change_state`: once the parent class has accepted the transition, going
        from paused to ready resets the state; the parent's verdict is returned. */
    method ChangeState(t: StateChange, parent: Result<StateChangeSuccess, StateChangeError>)
      returns (r: Result<StateChangeSuccess, StateChangeError>)
      requires Valid()
      modifies this
      ensures Valid()
      ensures r == parent
      ensures state == (if parent.Ok? && t == PausedToReady then DefaultState else old(state))
      ensures trace == old(trace) && modifiedPadPresent == old(modifiedPadPresent) && panicked == old(panicked)
    {
      if parent.Err? {
        return parent;
      }
      if t == PausedToReady {
        state := DefaultState;
      }
      r := parent;
    }
  }
}
