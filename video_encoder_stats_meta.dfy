/**
 * The buffer meta that carries a copy of an encoder's statistics: `add` attaches
 * one, `stats()` reads it back, the transform copies it onto a destination buffer
 * only when that buffer has none yet, and free resets the stored record.
 */
module VideoEncoderStatsMeta {
  import opened Common
  import opened Media
  import S = VideoEncoderStats

  /** A writable buffer (`&mut gst::BufferRef`). */
  class BufferRef {
    var buffer: Buffer

    constructor (b: Buffer)
      ensures buffer == b
    {
      buffer := b;
    }
  }

  /** `buffer.meta::<VideoEncoderStatsMeta>().map(|m| m.stats())`. */
  function StatsOf(b: Buffer): (r: Option<S.VideoEncoderStats>)
    ensures r.None? <==> forall i :: 0 <= i < |b.metas| ==> !b.metas[i].EncoderStatsMeta?
    ensures r.Some? ==> exists i :: 0 <= i < |b.metas| && b.metas[i] == EncoderStatsMeta(r.value)
  {
    match FindMeta(b.metas, EncoderStatsApi)
    case None => None
    case Some(m) => Some(m.stats)
  }

  /** Number of statistics metas in a meta list. */
  function CountStats(metas: seq<Meta>): nat
  {
    if |metas| == 0 then 0
    else CountStats(metas[..|metas| - 1]) + (if metas[|metas| - 1].EncoderStatsMeta? then 1 else 0)
  }

  /** `VideoEncoderStatsMeta::add`: append a meta holding exactly `stats`; its
      `stats()` accessor gives them back. */
  method Add(buf: BufferRef, stats: S.VideoEncoderStats) returns (index: nat)
    modifies buf
    ensures buf.buffer == old(buf.buffer).(metas := old(buf.buffer.metas) + [EncoderStatsMeta(stats)])
    ensures index < |buf.buffer.metas| && buf.buffer.metas[index] == EncoderStatsMeta(stats)
  {
    buf.buffer := buf.buffer.(metas := buf.buffer.metas + [EncoderStatsMeta(stats)]);
    index := |buf.buffer.metas| - 1;
  }

  /** The meta list the transform leaves on its destination. */
  function TransformMetas(dest: seq<Meta>, stats: S.VideoEncoderStats): seq<Meta>
  {
    if FindMeta(dest, EncoderStatsApi).Some? then dest else dest + [EncoderStatsMeta(stats)]
  }

  /** `video_encoder_stats_meta_transform`: reports success in every case; adds a
      clone of the source statistics only when the destination has none. */
  method Transform(dest: BufferRef, meta: Meta) returns (ok: bool)
    requires meta.EncoderStatsMeta?
    modifies dest
    ensures ok
    ensures StatsOf(old(dest.buffer)).Some? ==> dest.buffer == old(dest.buffer)
    ensures StatsOf(old(dest.buffer)).None? ==>
              dest.buffer == old(dest.buffer).(metas := old(dest.buffer.metas) + [meta])
    ensures dest.buffer == old(dest.buffer).(metas := TransformMetas(old(dest.buffer.metas), meta.stats))
  {
    if FindMeta(dest.buffer.metas, EncoderStatsApi).Some? {
      return true;
    }
    var _ := Add(dest, meta.stats);
    ok := true;
  }

  /** Transforming twice onto the same destination is transforming once, whatever
      the second source holds. */
  lemma TransformIdempotent(dest: seq<Meta>, first: S.VideoEncoderStats, second: S.VideoEncoderStats)
    ensures TransformMetas(TransformMetas(dest, first), second) == TransformMetas(dest, first)
  {
    if FindMeta(dest, EncoderStatsApi).None? {
      FindMetaAppend(dest, [EncoderStatsMeta(first)], EncoderStatsApi);
    }
  }

  /** The transform adds at most one statistics meta, and exactly one to a destination without. */
  lemma TransformCount(dest: seq<Meta>, stats: S.VideoEncoderStats)
    ensures CountStats(TransformMetas(dest, stats)) <= CountStats(dest) + 1
    ensures CountStats(dest) == 0 ==> CountStats(TransformMetas(dest, stats)) == 1
  {
    if FindMeta(dest, EncoderStatsApi).None? {
      var t := dest + [EncoderStatsMeta(stats)];
      assert t[..|t| - 1] == dest;
    }
    CountStatsNone(dest);
  }

  /** A meta list has no statistics meta to find exactly when it counts none. */
  lemma {:induction false} CountStatsNone(metas: seq<Meta>)
    ensures FindMeta(metas, EncoderStatsApi).None? <==> CountStats(metas) == 0
  {
    if |metas| > 0 {
      var n := |metas| - 1;
      assert metas == metas[..n] + [metas[n]];
      FindMetaAppend(metas[..n], [metas[n]], EncoderStatsApi);
      CountStatsNone(metas[..n]);
    }
  }

  /** `video_encoder_stats_meta_free`: the stored record becomes the default one. */
  method Free(buf: BufferRef, index: nat)
    requires index < |buf.buffer.metas| && buf.buffer.metas[index].EncoderStatsMeta?
    modifies buf
    ensures buf.buffer == old(buf.buffer).(metas := old(buf.buffer.metas)[index := EncoderStatsMeta(S.Default())])
    ensures buf.buffer.metas[index].stats == S.Default()
  {
    buf.buffer := buf.buffer.(metas := buf.buffer.metas[index := EncoderStatsMeta(S.Default())]);
  }

  /** The copy transforms a deep copy applies: a statistics meta's own rule
      (clone the record onto a buffer without one, add nothing otherwise), and
      `other` for every other meta. */
  function DeepCopyTransform(other: CopyTransform): CopyTransform
  {
    (m: Meta, done: seq<Meta>) =>
      if !m.EncoderStatsMeta? then other(m, done)
      else if FindMeta(done, EncoderStatsApi).Some? then None
      else Some(EncoderStatsMeta(m.stats))
  }

  /** The other metas' transforms never attach a statistics meta: each attaches
      a meta of its own API. */
  ghost predicate AttachesNoStats(other: CopyTransform)
  {
    forall m: Meta, done: seq<Meta> :: !m.EncoderStatsMeta? && other(m, done).Some? ==> !other(m, done).value.EncoderStatsMeta?
  }

  /** `buffer.copy_deep()`. */
  function CopyDeep(b: Buffer, other: CopyTransform): Buffer
  {
    BufferCopy(b, DeepCopyTransform(other))
  }

  /** Copying a statistics meta is the meta transform's rule. */
  lemma CopyStepIsTransform(m: Meta, done: seq<Meta>, other: CopyTransform)
    requires m.EncoderStatsMeta?
    ensures (match DeepCopyTransform(other)(m, done) case Some(c) => done + [c] case None => done)
            == TransformMetas(done, m.stats)
  {
  }

  /** The copy finds a statistics meta exactly where the source does, and the same record. */
  lemma {:induction false} CopyMetasKeepsStats(src: seq<Meta>, other: CopyTransform)
    requires AttachesNoStats(other)
    ensures FindMeta(CopiedMetas(src, DeepCopyTransform(other)), EncoderStatsApi) == FindMeta(src, EncoderStatsApi)
  {
    if |src| > 0 {
      var n := |src| - 1;
      var m := src[n];
      var t := DeepCopyTransform(other);
      CopyMetasKeepsStats(src[..n], other);
      assert src == src[..n] + [m];
      FindMetaAppend(src[..n], [m], EncoderStatsApi);
      var done := CopiedMetas(src[..n], t);
      if t(m, done).Some? {
        FindMetaAppend(done, [t(m, done).value], EncoderStatsApi);
      }
    }
  }

  /** A deep copy carries statistics equal to the original's and keeps at most
      one statistics meta; like every copy it keeps payload and timestamps and
      clears tag-memory. */
  lemma {:induction false} CopyDeepKeepsStats(b: Buffer, other: CopyTransform)
    requires AttachesNoStats(other)
    ensures StatsOf(CopyDeep(b, other)) == StatsOf(b)
    ensures CountStats(CopyDeep(b, other).metas) <= 1
    ensures CopyDeep(b, other).payload == b.payload && CopyDeep(b, other).timing == b.timing
    ensures CopyDeep(b, other).flags == b.flags - {TagMemory}
  {
    CopyMetasKeepsStats(b.metas, other);
    CopyMetasCount(b.metas, other);
  }

  lemma {:induction false} CopyMetasCount(src: seq<Meta>, other: CopyTransform)
    requires AttachesNoStats(other)
    ensures CountStats(CopiedMetas(src, DeepCopyTransform(other))) <= 1
  {
    if |src| > 0 {
      var n := |src| - 1;
      var m := src[n];
      var t := DeepCopyTransform(other);
      var done := CopiedMetas(src[..n], t);
      CopyMetasCount(src[..n], other);
      CountStatsNone(done);
      if t(m, done).Some? {
        var c := done + [t(m, done).value];
        assert c[..|c| - 1] == done;
      }
    }
  }

  /** Chained deep copies carry the original statistics too. */
  lemma ChainedCopiesKeepStats(b: Buffer, other: CopyTransform)
    requires AttachesNoStats(other)
    ensures StatsOf(CopyDeep(CopyDeep(b, other), other)) == StatsOf(b)
  {
    CopyDeepKeepsStats(b, other);
    CopyDeepKeepsStats(CopyDeep(b, other), other);
  }

  /** A buffer holding only a statistics meta is deep-copied with that meta alone. */
  lemma CopyDeepOnlyStats(b: Buffer, stats: S.VideoEncoderStats, other: CopyTransform)
    requires b.metas == [EncoderStatsMeta(stats)]
    ensures CopyDeep(b, other).metas == [EncoderStatsMeta(stats)]
  {
    var t := DeepCopyTransform(other);
    assert b.metas[..0] == [];
    assert CopiedMetas(b.metas[..0], t) == [];
    assert FindMeta([], EncoderStatsApi).None?;
    assert t(EncoderStatsMeta(stats), []) == Some(EncoderStatsMeta(stats));
  }

  /** The in-file test: add to a buffer without metas, then copy deep twice;
      both copies hold exactly the added statistics meta. */
  method AddThenCopyDeep(b: Buffer, stats: S.VideoEncoderStats, other: CopyTransform)
    returns (copied: Buffer, copiedTwice: Buffer)
    requires b.metas == []
    ensures copied.metas == [EncoderStatsMeta(stats)] && copiedTwice.metas == [EncoderStatsMeta(stats)]
    ensures StatsOf(copied) == Some(stats) && StatsOf(copiedTwice) == Some(stats)
  {
    var buf := new BufferRef(b);
    var i := Add(buf, stats);
    assert buf.buffer.metas == [EncoderStatsMeta(stats)];
    copied := CopyDeep(buf.buffer, other);
    CopyDeepOnlyStats(buf.buffer, stats, other);
    copiedTwice := CopyDeep(copied, other);
    CopyDeepOnlyStats(copied, stats, other);
  }
}
