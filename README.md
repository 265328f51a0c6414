# gst-plugins-rs core, modelled in Dafny

This project models five pieces of the fluendo gst-plugins-rs repository and proves properties about them.

- **The original-buffer restore element** (`OriginalBufferRestore`, `original_buffer_restore.dfy`). For every buffer carrying an original buffer meta it:
  - pushes that original downstream, restamped with the incoming buffer's timestamps and flags;
  - transplants the incoming buffer's metas onto it, rescaling size metas when the geometries differ;
  - announces the original's caps when they change;
  - delivers the pending segment once;
  - can mirror its input on the `modified_src` request pad.

  It also tunnels reconfigure events and a forwarding envelope upstream, and answers a forwarding query.
- **The encoder latency bookkeeping** (`VideoEncoderStats`): a FIFO of arrival stamps, a high-water mark, a running total of latencies, and the average.
- **The statistics meta** (`VideoEncoderStatsMeta`): `add`, `stats()`, the add-if-absent transform, free, and what deep copies carry.
- **The file source** (`RsFileSrc`): the location, the open file and the position, under `set_uri`, `start`, `stop` and `fill`.
- **The meson build wrapper** (`CargoWrapper`, with `PyText` for the Python string and `pathlib` operations it uses): the depfile rewrite and the cargo command line.

`Common` holds `Option`/`Result`. `Media` holds caps, video geometry, buffers and metas, which the restore element and the statistics meta share.

The models take the source's own form:
- **Restore element:** a class `Element` whose `state` field is the Rust `State`. `SinkChain` is proved to do exactly what the function `Chain` says. `Run` folds `Chain` over several buffers, and the multi-buffer properties are lemmas about `Run`. Every method keeps `Valid()`:
  - both cached caps states hold the geometry of their caps;
  - only segments are ever pending;
  - nothing reaches the modified pad before its stream-start.
- **Latency FIFO:** a class over the statistics record, with a ghost history of arrivals and departures.
- **File source:** a class whose `Fill` writes into an `array`.
- **Build wrapper:** loops over lines and sources, proved against functions.

Everything GStreamer does for the element is a parameter, as are the operating system, the URL parser and the file system:
- `VideoInfo::from_caps`, the scale transform and the copy transform are function fields of `Env`;
- the peers' answers to pushes and queries are method arguments;
- the arrival and departure instants are arguments;
- the URI parser, `File::open` and the file's contents are arguments; a seek's success is a flag, and a read's outcome is a bound on the bytes it delivers;
- `Path.exists()` is a predicate argument.

Where the repository's design description and the code disagree, the model follows the code:
- A buffer without an original buffer meta is **dropped**: `Ok` is returned and nothing is pushed (imp.rs:387-390). It is not passed through.
- The scale transform is built as `VideoMetaTransformScale::new(sink_vinfo, meta_vinfo)` (imp.rs:430-434). Its input geometry is the sink pad's and its output geometry is the original's, so `Env.scale(m, sinkV, metaV)` takes them in that order.

## Model

| member | source | states |
|---|---|---|
| Media.FindMeta | generic/originalbuffer/src/originalbufferrestore/imp.rs:387 | `buffer.meta::<T>()`: none exactly when no meta of that API is on the buffer; otherwise the first one in the list |
| Media.FindMetaAppend | video/stats/src/videoencoderstatsmeta.rs:126 | the meta found in a list is the one found in any extension of it |
| Media.BufferCopyShape | generic/originalbuffer/src/originalbufferrestore/imp.rs:401 | `Buffer::copy` (and `copy_deep`) keeps the payload and timestamps and every flag except tag-memory, which a copy never carries, and attaches at most one meta per source meta |
| Media.VerbatimCopy | generic/originalbuffer/src/originalbufferrestore/imp.rs:401 | when every source meta's copy transform attaches the meta itself, the copy holds exactly the source's metas, in order |
| OriginalBufferRestore.OriginalMeta | generic/originalbuffer/src/originalbufferrestore/imp.rs:387-390 | the meta found is an original buffer meta held by the buffer, and none is found exactly when the buffer holds none |
| OriginalBufferRestore.ChainWithoutMeta | generic/originalbuffer/src/originalbufferrestore/imp.rs:387-390 | a buffer without an original buffer meta returns `Ok`, pushes nothing and leaves the state unchanged |
| OriginalBufferRestore.ChainCapsRejected | generic/originalbuffer/src/originalbufferrestore/imp.rs:392-396 | when the meta's caps differ from the cached ones and src rejects the caps event, the only output is that caps event, the result is `NotNegotiated` and the state, including the caps cache, is unchanged |
| OriginalBufferRestore.ChainDelivers | generic/originalbuffer/src/originalbufferrestore/imp.rs:392-466 | when every push is accepted: the cache holds the meta's caps and their geometry if they changed and is untouched otherwise; the pending segment is cleared and nothing else in the state changes; the last output is the restored buffer on src; the input is mirrored on the modified pad exactly when the pad was requested and is present; the result is the src push's, whatever the mirror push returned |
| OriginalBufferRestore.ChainSegmentRejected | generic/originalbuffer/src/originalbufferrestore/imp.rs:448-452 | a rejected segment push gives `Err(Error)`, the segment is still taken, the segment was the last thing pushed, and no buffer is pushed on any pad |
| OriginalBufferRestore.RestoredContent | generic/originalbuffer/src/originalbufferrestore/imp.rs:401-409 | the output buffer has the original's payload and the input's timestamps; it has the input's flags except tag-memory, which neither `copy()` nor `copy_into` gives it; its metas start with those that copying the original attached, at most one per meta of the original, and gain at most one per input meta |
| OriginalBufferRestore.RestoredKeepsVerbatimMetas | generic/originalbuffer/src/originalbufferrestore/imp.rs:401-409 | when the copy transform attaches each meta of the original as it is, the output's metas start with the original's own |
| OriginalBufferRestore.TransplantAppend | generic/originalbuffer/src/originalbufferrestore/imp.rs:411-446 | the input's metas are considered one after the other, in order: transplanting a concatenation is transplanting its parts in turn |
| OriginalBufferRestore.TransplantExtends | generic/originalbuffer/src/originalbufferrestore/imp.rs:411-446 | transplanting only appends to the destination's metas, and at most one meta per input meta |
| OriginalBufferRestore.ExcludedIgnored | generic/originalbuffer/src/originalbufferrestore/imp.rs:412-421 | the original buffer meta and metas tagged Memory or MemoryReference never reach the output: with or without one of them in the input, the output metas are the same |
| OriginalBufferRestore.OnlyExcludedMetas | generic/originalbuffer/src/originalbufferrestore/imp.rs:412-421 | an input whose metas are all excluded gives the original's metas unchanged |
| OriginalBufferRestore.RescaleExample | generic/originalbuffer/src/originalbufferrestore/imp.rs:423-440 | a size meta on a 640x360 input whose original is 1280x720 is replaced by the scale transform's result, and the copy transform is not used |
| OriginalBufferRestore.SameGeometryCopies | generic/originalbuffer/src/originalbufferrestore/imp.rs:423-445 | with equal geometries, a surviving meta only gets the copy transform; if the copy fails it is skipped without error |
| OriginalBufferRestore.ScaleOrCopy | generic/originalbuffer/src/originalbufferrestore/imp.rs:423-445 | for every meta that is not skipped, the scale result is attached exactly when the meta has the size tag, both geometries are known, their width or height differ and the scale succeeds; in every other case (a missing geometry, no size tag, equal width and height in another format, a failed scale) only the copy attempt is made |
| OriginalBufferRestore.TransplantMetas | generic/originalbuffer/src/originalbufferrestore/imp.rs:411-446 | the loop over the input's metas (skip, scale, else copy) leaves exactly the metas `Transplant` describes |
| OriginalBufferRestore.RestoreBuffer | generic/originalbuffer/src/originalbufferrestore/imp.rs:401-446 | `original().copy()` (tag-memory cleared, metas through their copy transform), given the input's timestamps and flags by `copy_into` and then the transplanted metas, is exactly `Restored` |
| OriginalBufferRestore.ChainStep | generic/originalbuffer/src/originalbufferrestore/imp.rs:375-467 | the steps of `sink_chain` give exactly the state, outputs and result `Chain` describes |
| OriginalBufferRestore.CountWhereAppend | generic/originalbuffer/src/originalbufferrestore/imp.rs:392-452 | outputs counted over a concatenation are the sum of the counts of its parts |
| OriginalBufferRestore.ChainCapsCount | generic/originalbuffer/src/originalbufferrestore/imp.rs:392-399 | one buffer announces caps exactly once when it carries an original buffer meta whose caps differ from the cached ones, and otherwise not at all; only segments stay pending |
| OriginalBufferRestore.AnnounceOnce | generic/originalbuffer/src/originalbufferrestore/imp.rs:392-399 | over any run of buffers whose metas all carry caps `c`, with every caps push accepted: `c` is announced once if the cache did not already hold it and never otherwise; afterwards the cache holds `c` |
| OriginalBufferRestore.ChainSegmentCount | generic/originalbuffer/src/originalbufferrestore/imp.rs:448-452 | one buffer delivers the pending segment at most once; the segments it delivers plus the one still pending never exceed the one pending before |
| OriginalBufferRestore.SegmentAtMostOnce | generic/originalbuffer/src/originalbufferrestore/imp.rs:448-452 | over any run of buffers, the segments delivered plus the one still pending never exceed the one pending at the start, so a segment is delivered at most once |
| OriginalBufferRestore.SinkQuery | generic/originalbuffer/src/originalbufferrestore/imp.rs:344-373 | a custom query named `gst-original-buffer-forward-query` whose `query` field holds a query is handled, whatever the peer said. Its inner query is replaced by the src peer's answer and a `result` field holds the peer's verdict. No other field changes and the only field added is `result`. Every other query is what the default handler makes of it |
| OriginalBufferRestore.ForwardQueryAnswered | generic/originalbuffer/src/originalbufferrestore/imp.rs:356-368 | the answered envelope is again a forwarding envelope, and its `query` field holds the peer's answer |
| OriginalBufferRestore.EnvelopeCarries | generic/originalbuffer/src/originalbufferrestore/imp.rs:324-331 | the upstream envelope carries the original event in its `event` field and is itself named as a tunnel, so a second restore element upstream wraps it again |
| OriginalBufferRestore.StartedExtend | generic/originalbuffer/src/originalbufferrestore/imp.rs:217-221 | once the stream-start has gone out on the modified pad it stays started |
| OriginalBufferRestore.StreamOrderedExtend | generic/originalbuffer/src/originalbufferrestore/imp.rs:217-221 | appending outputs keeps the modified pad's stream-start first, when the stream has started or when none of the outputs goes to that pad |
| OriginalBufferRestore.ChainModifiedOnlyWhenPresent | generic/originalbuffer/src/originalbufferrestore/imp.rs:454-464 | the only thing `sink_chain` sends to the modified pad is the unmodified input, and only when that pad is present |
| OriginalBufferRestore.ChainKeepsCaches | generic/originalbuffer/src/originalbufferrestore/imp.rs:392-399 | `sink_chain` keeps the meta-caps cache consistent with its geometry, holds only segments pending, and leaves the sink caps and the request flag alone |
| OriginalBufferRestore.ChainKeepsInvariant | generic/originalbuffer/src/originalbufferrestore/imp.rs:375-467 | one `sink_chain` keeps the element invariant: the caches stay consistent and nothing reaches the modified pad before its stream-start |
| OriginalBufferRestore.Element.constructor | generic/originalbuffer/src/originalbufferrestore/imp.rs:19-39 | a new element has the default state (empty caps, no geometry, no pending segment, flag clear), no modified pad and nothing sent |
| OriginalBufferRestore.Element.SinkChain | generic/originalbuffer/src/originalbufferrestore/imp.rs:375-467 | `sink_chain` does exactly what `Chain` says to the state and the outputs and returns its result; after a panic it returns the `Error` fallback and does nothing (imp.rs:69-74) |
| OriginalBufferRestore.Element.SinkEvent | generic/originalbuffer/src/originalbufferrestore/imp.rs:264-316 | caps update the sink caps and their geometry; a segment replaces the pending one; both are handled and are never pushed on src. Both are mirrored on the modified pad exactly when it was requested and is present. Every other event goes to the default handler, whose verdict is returned. After a panic: `false` and nothing else |
| OriginalBufferRestore.Element.SrcEvent | generic/originalbuffer/src/originalbufferrestore/imp.rs:318-342 | a reconfigure event, or one already named `gst-original-buffer-forward-upstream-event`, goes out of the sink pad wrapped in an envelope and the sink peer's verdict is returned; any other event goes to the default handler; the state never changes. After a panic: `false` and nothing else |
| OriginalBufferRestore.Element.RequestNewPad | generic/originalbuffer/src/originalbufferrestore/imp.rs:192-239 | only the `modified_src` template gives a pad, and only for the first request. That request sets the flag, pushes a stream-start with stream id `originalbufferrestore` on the new pad and then posts the latency message. Later requests, and other templates, give no pad and change nothing. If a pad of that name is still present after a reset, adding it fails: the element panics and nothing is announced |
| OriginalBufferRestore.Element.ReleasePad | generic/originalbuffer/src/originalbufferrestore/imp.rs:241-247 | releasing a pad changes nothing the element holds: the parent `gst::Element` has no release function, so the modified pad stays (still mirrored to, and a second request after a reset fails to add it) and the request flag stays |
| OriginalBufferRestore.Element.ChangeState | generic/originalbuffer/src/originalbufferrestore/imp.rs:249-260 | the parent's verdict is returned; when the parent accepts PAUSED to READY the whole state, flag included, is reset to the default; a refused transition changes nothing |
| VideoEncoderStats.StatsRef.constructor | video/stats/src/videoencoderstats.rs:18-30 | a new record is the default one with its encoder name: no stamps queued, zero counters |
| VideoEncoderStats.StatsRef.BufferIn | video/stats/src/videoencoderstats.rs:33-38 | one arrival stamp is appended at the back; the high-water mark becomes the larger of its old value and the new queue length; the queue length is the number of arrivals minus departures |
| VideoEncoderStats.StatsRef.BufferOut | video/stats/src/videoencoderstats.rs:40-47 | the oldest stamp is removed (FIFO) and its latency (now minus arrival, never negative) is added to the total; with an empty queue it is the "output buffer w/o input" error and nothing changes; the invariant ties the queue to the arrivals not yet departed and the total to the sum of the departed ones' latencies |
| VideoEncoderStats.TotalLatencyClosedForm | video/stats/src/videoencoderstats.rs:40-47 | when nothing leaves before it arrived, the total latency is the sum of the departure stamps minus the sum of the arrival stamps |
| VideoEncoderStats.AvgProcessingTime | video/stats/src/videoencoderstats.rs:49-55 | zero with no buffers; otherwise a division error exactly when the 32-bit truncated count is zero; otherwise the floor of the total over that truncated count |
| VideoEncoderStats.AvgProcessingTimeFixed | video/stats/src/videoencoderstats.rs:49-55 | zero with no buffers, otherwise the floor of the total over the full count |
| VideoEncoderStats.AvgAgreesBelowU32 | video/stats/src/videoencoderstats.rs:49-55 | below 2^32 buffers the as-written average is the intended one |
| VideoEncoderStats.AvgPanicsAtU32 | video/stats/src/videoencoderstats.rs:51 | with exactly 2^32 buffers the as-written average divides by zero, while the intended one is defined |
| VideoEncoderStatsMeta.BufferRef.constructor | video/stats/src/videoencoderstatsmeta.rs:23-26 | a writable buffer holds exactly the buffer given |
| VideoEncoderStatsMeta.StatsOf | video/stats/src/videoencoderstatsmeta.rs:41-43 | `stats()` of the buffer's statistics meta: none exactly when the buffer has no statistics meta, otherwise the record held by one |
| VideoEncoderStatsMeta.Add | video/stats/src/videoencoderstatsmeta.rs:23-39 | appends exactly one statistics meta holding exactly the stats given and changes nothing else on the buffer |
| VideoEncoderStatsMeta.Transform | video/stats/src/videoencoderstatsmeta.rs:116-135 | always reports success; a destination with a statistics meta is left unchanged; one without gets a clone of the source's statistics appended |
| VideoEncoderStatsMeta.TransformIdempotent | video/stats/src/videoencoderstatsmeta.rs:126-135 | a second transform onto the same destination changes nothing, whatever the second source holds |
| VideoEncoderStatsMeta.TransformCount | video/stats/src/videoencoderstatsmeta.rs:126-135 | the transform adds at most one statistics meta, and exactly one to a destination without |
| VideoEncoderStatsMeta.CountStatsNone | video/stats/src/videoencoderstatsmeta.rs:126 | a destination has no statistics meta to find exactly when it counts none |
| VideoEncoderStatsMeta.CopyStepIsTransform | video/stats/src/videoencoderstatsmeta.rs:115-134 | during a deep copy a statistics meta is copied by the transform's rule: cloned onto a destination without one, nothing added otherwise |
| VideoEncoderStatsMeta.Free | video/stats/src/videoencoderstatsmeta.rs:108-114 | the stored record becomes the default one and nothing else changes |
| VideoEncoderStatsMeta.CopyMetasKeepsStats | video/stats/src/videoencoderstatsmeta.rs:177-181 | when no other meta's transform attaches a statistics meta, a deep copy finds the same statistics meta as its source |
| VideoEncoderStatsMeta.CopyMetasCount | video/stats/src/videoencoderstatsmeta.rs:115-134 | when no other meta's transform attaches a statistics meta, a deep copy holds at most one statistics meta |
| VideoEncoderStatsMeta.CopyDeepKeepsStats | video/stats/src/videoencoderstatsmeta.rs:177-181 | a deep copy carries statistics equal to its source's and holds at most one statistics meta; it keeps the payload and timestamps and drops tag-memory from the flags |
| VideoEncoderStatsMeta.ChainedCopiesKeepStats | video/stats/src/videoencoderstatsmeta.rs:182-185 | a copy of a copy still carries the original statistics |
| VideoEncoderStatsMeta.AddThenCopyDeep | video/stats/src/videoencoderstatsmeta.rs:160-186 | the in-file test: after `add` on a buffer without metas, the first and the second deep copy both hold exactly the added statistics meta, whatever the other transforms do |
| VideoEncoderStatsMeta.CopyDeepOnlyStats | video/stats/src/videoencoderstatsmeta.rs:177-181 | a buffer holding only a statistics meta is deep-copied with exactly that meta |
| RsFileSrc.FileSrc.constructor | src/rsfilesrc.rs:53-55 | no location, no file, position 0 |
| RsFileSrc.FileSrc.SetUri | src/rsfilesrc.rs:57-87 | no URI clears the location and succeeds; a URI that fails to parse or is not a file path clears it and fails; a file URI stores its path and succeeds |
| RsFileSrc.FileSrc.IsSeekable | src/rsfilesrc.rs:96-98 | always seekable |
| RsFileSrc.FileSrc.GetSize | src/rsfilesrc.rs:100-107 | `u64::MAX` with no open file or unreadable metadata, otherwise the file's length |
| RsFileSrc.FileSrc.Start | src/rsfilesrc.rs:109-128 | the old file is dropped and the position zeroed first. It succeeds exactly when there is a location and it opens, and the file is then open at offset 0. Otherwise there is no file |
| RsFileSrc.FileSrc.Stop | src/rsfilesrc.rs:130-135 | always succeeds, with no file and position 0 |
| RsFileSrc.FileSrc.Fill | src/rsfilesrc.rs:137-165 | no file: `Error` and the position is unchanged. It seeks only when the offset differs from the position, and a failed seek is `Error` with nothing changed. A read delivers `size` bytes: at most the buffer's length, taken from the file at the offset, and the position becomes offset + size. A failed read is `Error`. An error never touches the buffer |
| RsFileSrc.FilesrcFill | src/rsfilesrc.rs:203-216 | on success the byte count written back to `data_len` is at most the buffer length and the position is offset + count; on failure the code is `Error` and `data_len` keeps its value |
| RsFileSrc.StartThenFill | src/rsfilesrc.rs:109-165 | after a successful start, a fill at offset 0 needs no seek and reads the head of the file |
| PyText.JoinSplit | cargo_wrapper.py:50 | `" ".join(s.split(" "))` gives `s` back |
| PyText.ReadLinesShape | cargo_wrapper.py:33 | the lines `readlines` yields put together are the text; none is empty, each but the last ends with its newline and none holds another |
| CargoWrapper.SplitPairSpec | cargo_wrapper.py:47 | `output, srcs = l.split(": ", maxsplit=2)` succeeds exactly when `": "` occurs once in the line, and then the line is output, separator and srcs, neither part holding the separator |
| CargoWrapper.SplitPairOfRule | cargo_wrapper.py:47 | a line `a: b` with no other separator unpacks into `a` and `b` |
| CargoWrapper.ManifestOnlyForLibRs | cargo_wrapper.py:52-58 | only a source whose name is `lib.rs` gets a manifest, exactly when `parent.parent/Cargo.toml` exists, and it is that path |
| CargoWrapper.PlainSourceJoined | cargo_wrapper.py:50-58 | a source that is not a `lib.rs` contributes itself alone |
| CargoWrapper.NewlineNotLibRs | cargo_wrapper.py:33-58 | a source still carrying the line's newline is never named `lib.rs` |
| CargoWrapper.SourceDeps | cargo_wrapper.py:51-58 | the body of the inner loop appends the source and then its manifest, if any |
| CargoWrapper.AllDeps | cargo_wrapper.py:49-58 | the inner loop collects the dependencies of every source, in order |
| CargoWrapper.DepsAppend | cargo_wrapper.py:50-58 | the sources of a concatenation contribute one after the other |
| CargoWrapper.DepsLength | cargo_wrapper.py:50-58 | every source is kept and at most one manifest follows each |
| CargoWrapper.DepsWithoutManifests | cargo_wrapper.py:50-58 | sources without a manifest are their own dependencies, unchanged and in order |
| CargoWrapper.RuleLine | cargo_wrapper.py:43-60 | one contributing line gives `output + ": " + " ".join(deps) + "\n"`, or the unpacking error |
| CargoWrapper.RuleOfOneSource | cargo_wrapper.py:43-60 | a rule with a single source gives that source, joined with its manifest when it has one |
| CargoWrapper.GenerateDepfileFor | cargo_wrapper.py:29-62 | the loop over the lines builds exactly `DepfileOf`: each line's text in file order, or the first error |
| CargoWrapper.DepfileOfAppend | cargo_wrapper.py:33-60 | the lines of a concatenation contribute one after the other, and the first error wins |
| CargoWrapper.AndThenAssoc | cargo_wrapper.py:60 | appending contributions is associative, errors included |
| CargoWrapper.AndThenUnit | cargo_wrapper.py:31 | the empty starting content contributes nothing |
| CargoWrapper.IgnoresOtherLines | cargo_wrapper.py:33-34 | a line that does not start with the file stem changes nothing, wherever it stands |
| CargoWrapper.OneLine | cargo_wrapper.py:33-60 | a file of one newline-terminated line starting with the stem gives that line's rule, newline included |
| CargoWrapper.EmptyRuleRaises | cargo_wrapper.py:43-47 | as written, a line `stem:` followed by a newline does not end in `:`, so unpacking its split raises |
| CargoWrapper.LastLibRsLosesManifest | cargo_wrapper.py:50-60 | as written, a `lib.rs` that is the last source of its line keeps the newline, so its manifest is never added and the rule ends in two newlines |
| CargoWrapper.OneLineFixed | cargo_wrapper.py:33-60 | with the newline stripped first, a one-line file gives the rule of the line without its newline |
| CargoWrapper.FixedEmptyRule | cargo_wrapper.py:43-45 | with the newline stripped first, `stem:` gives a rule with no sources |
| CargoWrapper.FixedLastLibRs | cargo_wrapper.py:50-60 | with the newline stripped first, a last `lib.rs` is followed by its manifest |
| CargoWrapper.FixedAgreesWithoutNewlines | cargo_wrapper.py:33-62 | on lines without a newline, the corrected reading and the written one agree |
| CargoWrapper.PackageArgsShape | cargo_wrapper.py:103-104 | one `-p X` pair per package, in order |
| CargoWrapper.AppendPackages | cargo_wrapper.py:103-104 | the loop appends `-p X` for every package, in order |
| CargoWrapper.CargoSubcommand | cargo_wrapper.py:81-93 | builds `cargo build` with `--bin`, or `cargo cbuild` plus `--features doc` unless docs are disabled, with `--release` for a release build; for tests, `cargo ctest --no-fail-fast --color=always` |
| CargoWrapper.CargoCommand | cargo_wrapper.py:81-107 | the subcommand, then `--manifest-path`, `--prefix`, `--libdir` and one `-p` per `include` entry without `--bin`, or `--bin <name>` with it; cargo runs in the source directory exactly when `--bin` is given |
| CargoWrapper.CommandShape | cargo_wrapper.py:81-93 | the command starts with `cargo` and its subcommand is `ctest`, `build` (with `--bin`) or `cbuild`; a build asks for `--release` exactly on a release target and, without `--bin`, for `--features` exactly when docs are not disabled |
| CargoWrapper.PackagesFromInclude | cargo_wrapper.py:98-104 | without `--bin`, the suffix is the three path options followed by exactly one `-p` pair per comma-separated `include` entry, in order |

## Left out

- GStreamer itself is not modelled. Real pads, linking, caps negotiation, `VideoInfo::from_caps`, the scale and copy transforms and the peers are functions or arguments. `Buffer::copy` and `copy_deep` are `Media.BufferCopy`: tag-memory is cleared and each meta goes through its copy transform, the same `Env.copy` the meta loop uses. `copy_into` with `TIMESTAMPS | FLAGS` is the fixed `CopiedFlags` plus the input's timing. Their results are whatever they are given to be.
- Locking is left out: the `AtomicRefCell`, the mutexes and concurrent callers. Every model runs one call at a time.
- `ChildProxy` pad lookup by name (imp.rs:110-133) is left out: `modifiedPadPresent` stands for "`child_by_name("modified_src_pad")` finds a pad".
- OriginalBufferRestore.Element: the fallbacks gstreamer-rs gives the element functions (`request_new_pad`, `release_pad`, `change_state`) once the element has panicked are not modelled, because that code lives outside this repository. Only the pad functions wrapped at imp.rs:69-100 honour `panicked`.
- OriginalBufferRestore.SinkQuery: does not model the `false` fallback after a panic, nor the panic of `assert!(q.is_writable())` (imp.rs:361); the query is taken to be writable. It is a function of the query alone.
- The group id for the stream-start comes from `gst::GroupId::next()`, a global counter, and is an argument of RequestNewPad.
- Debug logging is left out everywhere, along with the element's registration, pad templates and properties.
- The `Display` of the statistics (floating point) and `get_cpu_usage` (procfs) are left out.
- Meta registration and the unsafe init code of the statistics meta are left out (videoencoderstatsmeta.rs:77-106, 137-157). The meta's `init` is reflected only in `Add` storing the stats given.
- Real file I/O, `url` parsing and the `extern "C"` pointer marshalling of the file source are left out (rsfilesrc.rs:168-244). Only their effects on the fields are modelled. `get_uri` (rsfilesrc.rs:89-94) is left out: it only calls into the `url` crate.
- Integer widths of the file source (`u64` positions, `usize` lengths) are not bounded: positions are unbounded naturals, so the `u64` overflow of `self.position += size as u64` (rsfilesrc.rs:155) with a huge offset is not modelled.
- In the build wrapper, `argparse`, `subprocess`, `glob`, file copying, timestamps, `.pc` moving and the log file are left out. The contents of `<file_stem>.d` and `Path.exists()` are arguments. Path options are strings that become `pathlib` paths through `PyText.ParsePath`.
- PyText.ParsePath: paths are POSIX paths (`PurePosixPath`); the Windows paths `P` would be there, with `\` separators and drive letters, are not modelled.
- PyText.ReadLines: the text is taken as already newline-translated, as Python's text mode gives it; lines split on `"\n"` only, so a `"\r\n"` read in binary mode is not modelled.
- RescaleExample: one concrete instance of the scale rule; the rule for all inputs is ScaleOrCopy.
- VideoEncoderStatsMeta.CopyMetasKeepsStats: assumes that the other metas' copy transforms attach metas of their own API, never a statistics meta (`AttachesNoStats`), as every GStreamer transform function does; what a copy of the other metas holds is otherwise left to their transforms.
- Unknown commands (cargo_wrapper.py:94-96) cannot occur: `Command` has only `Build` and `Test`.

## Findings

| source | as written | input that shows it | evidently intended | confidence | as-written member | corrected member |
|---|---|---|---|---|---|---|
| video/stats/src/videoencoderstats.rs:51 | the total is divided by `num_buffers as u32`, which is zero when the count is a multiple of 2^32, and `Duration` division by zero panics | `num_buffers == 4294967296` | divide by the full count, which is nonzero in that branch | medium, not executed | VideoEncoderStats.AvgPanicsAtU32 | VideoEncoderStats.AvgProcessingTimeFixed |
| cargo_wrapper.py:43-47 | `readlines()` keeps the newline, so a line `output:` followed by a newline does not end in `:`; the `": "` split then gives one part and the unpacking raises | a depfile holding the line `<stem>:` and a newline | handle `output:` as a rule without sources, as the comment at lines 36-42 describes | high, not executed | CargoWrapper.EmptyRuleRaises | CargoWrapper.FixedEmptyRule |
| cargo_wrapper.py:50-60 | the last source of a line still carries the newline, so a last `lib.rs` is never named `lib.rs`: its `Cargo.toml` is not added and the emitted rule ends in two newlines | a depfile holding `<stem>: <dir>/src/lib.rs` and a newline, with `<dir>/Cargo.toml` present | strip the newline before splitting, so the manifest follows every `lib.rs` and each rule ends in one newline | high, not executed | CargoWrapper.LastLibRsLosesManifest | CargoWrapper.FixedLastLibRs |
