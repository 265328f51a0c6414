/**
 * The media values the elements exchange: caps, video geometry, buffers and the
 * metas attached to them. Caps are opaque values compared for equality only; a
 * buffer is its payload, its timestamps, its flags and its ordered list of metas.
 */
module Media {
  import opened Common
  import S = VideoEncoderStats

  /** Negotiated format descriptor, compared for equality only. */
  datatype Caps = Caps(structures: seq<string>)

  /** `gst::Caps::new_empty()`. */
  const EmptyCaps := Caps([])

  /** The geometry `VideoInfo::from_caps` derives from video caps. */
  datatype VideoInfo = VideoInfo(format: string, width: nat, height: nat)

  /** Timestamps and offsets; `None` is GStreamer's CLOCK_TIME_NONE / OFFSET_NONE. */
  datatype Timing = Timing(
    pts: Option<nat>,
    dts: Option<nat>,
    duration: Option<nat>,
    offset: Option<nat>,
    offsetEnd: Option<nat>)

  datatype BufferFlag =
    | Live | DecodeOnly | Discont | Resync | Corrupted | Marker | Header | Gap
    | Droppable | DeltaUnit | TagMemory | SyncAfter | NonDroppable

  /** Tags a meta API registers. */
  datatype MetaTag = MemoryTag | MemoryReferenceTag | SizeTag | OrientationTag | VideoTag | ColorspaceTag

  /** The registered API of a meta, which `buffer.meta::<T>()` looks up. */
  datatype MetaApi = OriginalBufferApi | EncoderStatsApi | OtherApi(name: string)

  datatype Meta =
      /** Attached upstream by the save element: the original buffer and its caps. */
    | OriginalBufferMeta(original: Buffer, caps: Caps)
      /** The encoder statistics meta; registered without tags. */
    | EncoderStatsMeta(stats: S.VideoEncoderStats)
      /** Any other meta, identified by its API name and carrying its tags. */
    | TaggedMeta(api: string, tags: set<MetaTag>, data: seq<int>)

  datatype Buffer = Buffer(payload: seq<bv8>, timing: Timing, flags: set<BufferFlag>, metas: seq<Meta>)

  function Api(m: Meta): MetaApi
  {
    match m
    case OriginalBufferMeta(_, _) => OriginalBufferApi
    case EncoderStatsMeta(_) => EncoderStatsApi
    case TaggedMeta(name, _, _) => OtherApi(name)
  }

  function Tags(m: Meta): set<MetaTag>
  {
    if m.TaggedMeta? then m.tags else {}
  }

  /** `buffer.meta::<T>()`: the first meta of the given API in the buffer's list. */
  function FindMeta(metas: seq<Meta>, api: MetaApi): (r: Option<Meta>)
    ensures r.None? <==> forall i :: 0 <= i < |metas| ==> Api(metas[i]) != api
    ensures r.Some? ==>
              exists i :: 0 <= i < |metas| && metas[i] == r.value && Api(r.value) == api
                          && forall j :: 0 <= j < i ==> Api(metas[j]) != api
  {
    if |metas| == 0 then None
    else if Api(metas[0]) == api then Some(metas[0])
    else
      var r := FindMeta(metas[1..], api);
      assert forall i :: 1 <= i < |metas| ==> metas[i] == metas[1..][i - 1];
      r
  }

  /** A meta's copy transform onto a buffer that already holds the given metas:
      the meta it attaches, or none (the transform fails or adds nothing; a meta
      without a transform function is never copied). */
  type CopyTransform = (Meta, seq<Meta>) -> Option<Meta>

  /** The metas a buffer copy ends with: each source meta, in order, goes through
      its copy transform onto the metas copied so far. */
  function CopiedMetas(metas: seq<Meta>, t: CopyTransform): seq<Meta>
  {
    if |metas| == 0 then []
    else
      var done := CopiedMetas(metas[..|metas| - 1], t);
      match t(metas[|metas| - 1], done)
      case Some(c) => done + [c]
      case None => done
  }

  /** `gst_buffer_copy` and `gst_buffer_copy_deep`: the same memory and
      timestamps, the flags without tag-memory, and the metas their copy
      transforms attach. */
  function BufferCopy(b: Buffer, t: CopyTransform): Buffer
  {
    b.(flags := b.flags - {TagMemory}, metas := CopiedMetas(b.metas, t))
  }

  /** A copy keeps payload and timestamps, never carries tag-memory, keeps every
      other flag, and holds at most one meta per source meta. */
  lemma {:induction false} BufferCopyShape(b: Buffer, t: CopyTransform)
    ensures var c := BufferCopy(b, t);
            && c.payload == b.payload && c.timing == b.timing
            && TagMemory !in c.flags
            && (forall f :: f != TagMemory ==> (f in c.flags <==> f in b.flags))
            && |c.metas| <= |b.metas|
  {
    CopiedMetasLength(b.metas, t);
  }

  lemma {:induction false} CopiedMetasLength(metas: seq<Meta>, t: CopyTransform)
    ensures |CopiedMetas(metas, t)| <= |metas|
  {
    if |metas| > 0 {
      CopiedMetasLength(metas[..|metas| - 1], t);
    }
  }

  /** When every meta's copy transform attaches the meta itself, the copy holds
      exactly the source's metas, in order. */
  lemma {:induction false} VerbatimCopy(metas: seq<Meta>, t: CopyTransform)
    requires forall k :: 0 <= k < |metas| ==> t(metas[k], metas[..k]) == Some(metas[k])
    ensures CopiedMetas(metas, t) == metas
  {
    if |metas| > 0 {
      var n := |metas| - 1;
      forall k | 0 <= k < n
        ensures t(metas[..n][k], metas[..n][..k]) == Some(metas[..n][k])
      {
        assert metas[..n][..k] == metas[..k];
      }
      VerbatimCopy(metas[..n], t);
      assert metas == metas[..n] + [metas[n]];
    }
  }

  /** A meta found in a prefix is the one found in any extension of it. */
  lemma {:induction false} FindMetaAppend(a: seq<Meta>, b: seq<Meta>, api: MetaApi)
    ensures FindMeta(a + b, api) == if FindMeta(a, api).Some? then FindMeta(a, api) else FindMeta(b, api)
  {
    if |a| > 0 {
      assert (a + b)[1..] == a[1..] + b;
      FindMetaAppend(a[1..], b, api);
    } else {
      assert a + b == b;
    }
  }
}
