/** The parts of the file cache of El/Cache/ObjectCache.hpp and El/Cache/ObjectCache.cpp, each under its own lock. */
module ObjectCache {

  import opened Wrappers
  import opened Crc

  type Name = string

  type Time = nat

  /** A version of a file: stat tells the time and the length, reading gives the content. */
  datatype File = File(mtime: Time, content: seq<Byte>)

  datatype Object = Object(number: nat, content: seq<Byte>, hash: seq<bool>)

  datatype Phase = Loading | Loaded | NotFound | LoadingError

  datatype Holder = Holder(
    phase: Phase, item: Option<Object>, mtime: Time, size: nat, reviewed: Time, accessed: Time)

  const NEW_HOLDER := Holder(Loading, None, 0, 0, 0, 0)

  /** The recorded time and length are those of the file. */
  predicate Matches(h: Holder, file: File) {
    h.mtime == file.mtime && h.size == |file.content|
  }

  datatype Answer = Yes | No | UnexpectedState

  /** is_modified, where file is what stat finds under the name. */
  function IsModified(h: Holder, file: Option<File>): Answer {
    match h.phase
    case Loading => UnexpectedState
    case NotFound | LoadingError => Yes
    case Loaded => if file.Some? && Matches(h, file.value) then No else Yes
  }

  datatype Access = Got(item: Option<Object>) | Missing | Failed | Unexpected

  function Fetched(h: Holder): Access {
    match h.phase
    case Loading => Unexpected
    case NotFound => Missing
    case LoadingError => Failed
    case Loaded => Got(h.item)
  }

  function Hash(content: seq<Byte>): seq<bool> {
    Checksum(Zeros(64), content)
  }

  function NewObject(number: nat, content: seq<Byte>): Object {
    Object(number, content, Hash(content))
  }

  /** What a load leaves behind, if fopen gives the first file and stat the second one. */
  function AfterLoad(
      h: Holder, number: nat, open: Option<File>, stated: Option<File>, intact: bool, start: Time, end: Time): Holder {
    if open.None? || stated.None? then h.(phase := NotFound, reviewed := start)
    else if !intact then h.(phase := LoadingError, reviewed := start)
    else
      Holder(Loaded, Some(NewObject(number, open.value.content)), stated.value.mtime, |stated.value.content|, end, end)
  }

  const CHUNK := 1024

  class ObjectHolder {
    var phase: Phase
    var item: Option<Object>
    var mtime: Time
    var size: nat
    var reviewed: Time
    var accessed: Time

    function State(): Holder
      reads this
    {
      Holder(phase, item, mtime, size, reviewed, accessed)
    }

    constructor ()
      ensures State() == NEW_HOLDER
    {
      phase, item, mtime, size, reviewed, accessed := Loading, None, 0, 0, 0, 0;
    }

    method Modified(file: Option<File>) returns (r: Answer)
      ensures r == IsModified(State(), file)
      ensures r.UnexpectedState? <==> phase.Loading?
      ensures r.No? <==> phase.Loaded? && file.Some? && file.value.mtime == mtime && |file.value.content| == size
    {
      match phase {
        case NotFound => return Yes;
        case LoadingError => return Yes;
        case Loading => return UnexpectedState;
        case Loaded =>
      }
      if file.None? {
        return Yes;
      }
      r := if mtime != file.value.mtime || size != |file.value.content| then Yes else No;
    }

    method Fetch(now: Time) returns (r: Access)
      modifies this`accessed
      ensures r == Fetched(old(State()))
      ensures State() == if phase.Loaded? then old(State()).(accessed := now) else old(State())
      ensures match phase
        case Loaded => r == Got(item)
        case NotFound => r == Missing
        case LoadingError => r == Failed
        case Loading => r == Unexpected
    {
      match phase {
        case NotFound => return Missing;
        case LoadingError => return Failed;
        case Loading => return Unexpected;
        case Loaded => accessed := now;
      }
      r := Got(item);
    }

    /** The loop over the chunks of the opened file. */
    static method ReadChunks(content: seq<Byte>) returns (read: seq<Byte>, hash: seq<bool>)
      ensures read == content && hash == Hash(content)
    {
      read, hash := [], Zeros(64);
      var offset := 0;
      while offset < |content|
        invariant offset <= |content| && read == content[..offset]
        invariant IsRegister(hash) && hash == Hash(read)
      {
        var end := if offset + CHUNK < |content| then offset + CHUNK else |content|;
        var chunk := content[offset..end];
        ChunkIndependent(Zeros(64), read, chunk);
        hash := Update(hash, chunk);
        read := read + chunk;
        offset := end;
      }
    }

    method Load(number: nat, open: Option<File>, stated: Option<File>, intact: bool, start: Time, end: Time)
      returns (r: Access)
      modifies this
      ensures State() == AfterLoad(old(State()), number, open, stated, intact, start, end)
      ensures r == Fetched(State())
      ensures phase == if open.None? || stated.None? then NotFound else if intact then Loaded else LoadingError
      ensures phase.Loaded? ==>
        && item == Some(Object(number, open.value.content, Hash(open.value.content)))
        && mtime == stated.value.mtime && size == |stated.value.content| && reviewed == accessed == end
      ensures !phase.Loaded? ==> reviewed == start && accessed == old(accessed) && item == old(item)
    {
      phase := Loading;
      reviewed := start;
      if open.None? || stated.None? {
        phase := NotFound;
        return Missing;
      }
      var content, hash := ReadChunks(open.value.content);
      if !intact {
        phase := LoadingError;
        return Failed;
      }
      phase := Loaded;
      mtime := stated.value.mtime;
      size := |stated.value.content|;
      reviewed := end;
      accessed := reviewed;
      item := Some(Object(number, content, hash));
      r := Got(item);
    }
  }

  // --- The container ------------------------------------------------------------------------

  datatype Lookup = Shortcut(h: ObjectHolder) | Unmodified(h: ObjectHolder) | Miss | Thrown

  predicate Expired(accessed: Time, timeout: Time, now: Time) {
    accessed + timeout < now
  }

  predicate WithinReview(reviewed: Time, period: Time, now: Time) {
    period != 0 && reviewed + period > now
  }

  class FileCache {
    const period: Time
    const timeout: Time
    var objects: map<Name, ObjectHolder>
    var lastCheck: Time
    var sequenceNumber: nat

    constructor (period: Time, timeout: Time)
      ensures this.period == period && this.timeout == timeout
      ensures objects == map[] && lastCheck == 0 && sequenceNumber == 1
    {
      this.period, this.timeout := period, timeout;
      objects, lastCheck, sequenceNumber := map[], 0, 1;
    }

    method Clear()
      modifies this`objects
      ensures objects == map[]
    {
      objects := map[];
    }

    method Erase(f: Name)
      modifies this`objects
      ensures objects == if f == "" then old(objects) else old(objects) - {f}
    {
      if f != "" {
        objects := objects - {f};
      }
    }

    /** The removal of what was not accessed for too long, in whatever order the hash map gives. */
    method Sweep(f: Name, now: Time)
      modifies this`objects, this`lastCheck
      ensures var due := timeout != 0 && old(lastCheck) + timeout < now;
        && lastCheck == (if due then now else old(lastCheck))
        && objects == map n | n in old(objects) &&
             !(due && n != f && old(objects)[n].accessed + timeout < now) :: old(objects)[n]
    {
      if timeout != 0 && lastCheck + timeout < now {
        var todo := objects.Keys;
        while |todo| > 0
          invariant todo <= old(objects).Keys
          invariant objects == map n | n in old(objects) &&
             (n in todo || n == f || !(old(objects)[n].accessed + timeout < now)) :: old(objects)[n]
          decreases todo
        {
          var n :| n in todo;
          if objects[n].accessed + timeout < now && n != f {
            objects := objects - {n};
          }
          todo := todo - {n};
        }
        lastCheck := now;
      }
    }

    /** get under the read lock, up to its release. */
    method FindUnmodified(f: Name, now: Time, file: Option<File>) returns (r: Lookup)
      modifies if f in objects then {objects[f]} else {}
      ensures objects == old(objects)
      ensures if f !in objects then r == Miss
        else if period != 0 && now < old(objects[f].reviewed) + period then
          r == Shortcut(objects[f]) && objects[f].State() == old(objects[f].State())
        else if IsModified(old(objects[f].State()), file).No? then
          r == Unmodified(objects[f]) && objects[f].State() == old(objects[f].State()).(reviewed := now)
        else
          && r == (if old(objects[f].phase).Loading? then Thrown else Miss)
          && objects[f].State() == old(objects[f].State())
    {
      if f !in objects {
        return Miss;
      }
      var holder := objects[f];
      if period != 0 && holder.reviewed + period > now {
        return Shortcut(holder);
      }
      var modified := holder.Modified(file);
      if modified.No? {
        holder.reviewed := now;
        return Unmodified(holder);
      }
      r := if modified.Yes? then Miss else Thrown;
    }

    /** get under the write lock: the second look, and a new holder if that does not help either. */
    method FindOrCreate(f: Name, now: Time, file: Option<File>) returns (r: Lookup, created: ObjectHolder?, number: nat)
      modifies this`objects, this`sequenceNumber, if f in objects then {objects[f]} else {}
      ensures number == old(sequenceNumber)
      ensures if f in old(objects) && IsModified(old(objects[f].State()), file).No? then
          && r == Unmodified(old(objects)[f]) && created == null
          && objects == old(objects) && sequenceNumber == old(sequenceNumber)
          && objects[f].State() == old(objects[f].State()).(reviewed := now)
        else if f in old(objects) && old(objects[f].phase).Loading? then
          && r == Thrown && created == null && objects == old(objects) && sequenceNumber == old(sequenceNumber)
          && objects[f].State() == old(objects[f].State())
        else
          && r == Miss && created != null && fresh(created) && created.State() == NEW_HOLDER
          && objects == old(objects)[f := created] && sequenceNumber == old(sequenceNumber) + 1
          && (f in old(objects) ==> old(objects)[f].State() == old(objects[f].State()))
    {
      number := sequenceNumber;
      if f in objects {
        var holder := objects[f];
        var modified := holder.Modified(file);
        if modified.No? {
          holder.reviewed := now;
          return Unmodified(holder), null, number;
        } else if modified.UnexpectedState? {
          return Thrown, null, number;
        }
      }
      sequenceNumber := sequenceNumber + 1;
      created := new ObjectHolder();
      objects := objects[f := created];
      r := Miss;
    }
  }
}
