/**
 * The file source: a location, an open file and the read position the element
 * believes the file is at. URI parsing, opening, seeking, metadata and reading are
 * decided outside and passed in; the file itself is its byte contents plus the
 * operating system's offset into it.
 */
module RsFileSrc {
  import opened Common

  type byte = bv8

  const U64_MAX: nat := 0xFFFF_FFFF_FFFF_FFFF

  /** `GstFlowReturn` as the C side sees it. */
  datatype GstFlowReturn = FlowOk | NotLinked | Flushing | Eos | NotNegotiated | FlowError

  function FlowCode(r: GstFlowReturn): int
  {
    match r
    case FlowOk => 0
    case NotLinked => -1
    case Flushing => -2
    case Eos => -3
    case NotNegotiated => -4
    case FlowError => -5
  }

  /** What `Url::parse` followed by `to_file_path` makes of a URI string. */
  datatype UriParse = ParseFailed | NotAFilePath | FilePath(path: string)

  /** An open file: its bytes and the operating system's offset into them. */
  datatype OpenFile = OpenFile(contents: seq<byte>, cursor: nat)

  /** What one call of `read` does: fail, or deliver at most `limit` bytes. */
  datatype ReadOutcome = ReadFailed | ReadUpTo(limit: nat)

  class FileSrc {
    var location: Option<string>
    var file: Option<OpenFile>
    var position: nat

    /** The element's position is where the open file's offset really is. */
    ghost predicate Valid()
      reads this
    {
      file.Some? ==> file.value.cursor == position
    }

    /** `FileSrc::new`. */
    constructor ()
      ensures Valid()
      ensures location == None && file == None && position == 0
    {
      location, file, position := None, None, 0;
    }

    /** `set_uri`: `None` clears the location; a URI that does not parse or does not
        name a local file clears it and fails; a file URI stores its path. */
    method SetUri(uri: Option<string>, parse: string -> UriParse) returns (ok: bool)
      requires Valid()
      modifies this`location
      ensures Valid()
      ensures uri.None? ==> ok && location == None
      ensures uri.Some? ==> match parse(uri.value)
                            case FilePath(p) => ok && location == Some(p)
                            case _ => !ok && location == None
    {
      match uri {
        case None =>
          location := None;
          return true;
        case Some(s) =>
          match parse(s) {
            case FilePath(p) =>
              location := Some(p);
              return true;
            case NotAFilePath =>
              location := None;
              return false;
            case ParseFailed =>
              location := None;
              return false;
          }
      }
    }

    /** `is_seekable`. */
    function IsSeekable(): (r: bool)
      ensures r
    {
      true
    }

    /** `get_size`: the file length, or `u64::MAX` with no open file or when its
        metadata cannot be read. */
    function GetSize(metadataOk: bool): (r: nat)
      reads this
      ensures file.None? ==> r == U64_MAX
      ensures file.Some? ==> r == if metadataOk then |file.value.contents| else U64_MAX
    {
      match file
      case None => U64_MAX
      case Some(f) => if metadataOk then |f.contents| else U64_MAX
    }

    /** `start`: drop any open file and rewind, then open the location. */
    method Start(open: string -> Option<seq<byte>>) returns (ok: bool)
      requires Valid()
      modifies this`file, this`position
      ensures Valid()
      ensures position == 0
      ensures ok <==> location.Some? && open(location.value).Some?
      ensures ok ==> file == Some(OpenFile(open(location.value).value, 0))
      ensures !ok ==> file == None
    {
      file := None;
      position := 0;
      match location {
        case None =>
          return false;
        case Some(path) =>
          match open(path) {
            case Some(contents) =>
              file := Some(OpenFile(contents, 0));
              return true;
            case None =>
              return false;
          }
      }
    }

    /** `stop`: always succeeds, with no file and position 0. */
    method Stop() returns (ok: bool)
      requires Valid()
      modifies this`file, this`position
      ensures Valid()
      ensures ok && file == None && position == 0
    {
      file := None;
      position := 0;
      ok := true;
    }

    /** `fill`: seek when the requested offset is not the current position, then
        read up to `data.Length` bytes into the front of `data`. */
    method Fill(offset: nat, data: array<byte>, seekOk: bool, read: ReadOutcome)
      returns (r: Result<nat, GstFlowReturn>)
      requires Valid()
      modifies this`file, this`position, data
      ensures Valid()
      ensures location == old(location)
      ensures old(file).None? ==> r == Err(FlowError) && position == old(position) && file == None
      ensures old(file).Some? && old(position) != offset && !seekOk ==>
                r == Err(FlowError) && position == old(position) && file == old(file)
      ensures r.Err? ==> data[..] == old(data[..])
      ensures old(file).Some? && (old(position) == offset || seekOk) ==>
                && file.Some? && file.value.contents == old(file).value.contents
                && (read.ReadFailed? ==> r == Err(FlowError) && position == offset)
                && (read.ReadUpTo? ==>
                      var contents := old(file).value.contents;
                      var from := Min(offset, |contents|);
                      var size := Min(Min(read.limit, data.Length), |contents| - from);
                      && r == Ok(size)
                      && position == offset + size
                      && data[..size] == contents[from..from + size]
                      && data[size..] == old(data[size..]))
      ensures r.Ok? ==> r.value <= data.Length && position == offset + r.value
    {
      match file {
        case None =>
          return Err(FlowError);
        case Some(f) =>
          var cur := f;
          if position != offset {
            if !seekOk {
              return Err(FlowError);
            }
            cur := cur.(cursor := offset);
            file := Some(cur);
            position := offset;
          }
          match read {
            case ReadFailed =>
              return Err(FlowError);
            case ReadUpTo(limit) =>
              var contents := cur.contents;
              var from := Min(offset, |contents|);
              var size := Min(Min(limit, data.Length), |contents| - from);
              forall k | 0 <= k < size {
                data[k] := contents[from + k];
              }
              file := Some(cur.(cursor := cur.cursor + size));
              position := position + size;
              return Ok(size);
          }
      }
    }
  }

  /** `filesrc_fill`: the C entry point; on success the byte count is written back
      through `data_len`, otherwise `data_len` keeps its value. */
  method FilesrcFill(src: FileSrc, offset: nat, data: array<byte>, dataLen: nat, seekOk: bool, read: ReadOutcome)
    returns (ret: GstFlowReturn, newDataLen: nat)
    requires src.Valid() && data.Length == dataLen
    modifies src`file, src`position, data
    ensures src.Valid()
    ensures ret == FlowOk ==> newDataLen <= dataLen && src.position == offset + newDataLen
    ensures ret != FlowOk ==> ret == FlowError && newDataLen == dataLen
    ensures old(src.file).None? ==> ret == FlowError && src.position == old(src.position)
  {
    var r := src.Fill(offset, data, seekOk, read);
    match r {
      case Ok(actualLen) =>
        return FlowOk, actualLen;
      case Err(e) =>
        return e, dataLen;
    }
  }

  /** A fill after `start` reading from offset 0 needs no seek and reads the head of the file. */
  method StartThenFill(src: FileSrc, open: string -> Option<seq<byte>>, data: array<byte>, limit: nat)
    returns (started: bool, r: Result<nat, GstFlowReturn>)
    requires src.Valid()
    modifies src`file, src`position, data
    ensures started <==> src.location.Some? && open(src.location.value).Some?
    ensures started ==>
              var contents := open(src.location.value).value;
              && r.Ok? && r.value == Min(Min(limit, data.Length), |contents|)
              && data[..r.value] == contents[..r.value]
    ensures !started ==> r == Err(FlowError)
  {
    started := src.Start(open);
    r := src.Fill(0, data, false, ReadUpTo(limit));
  }
}
