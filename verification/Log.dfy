// hl/common/log.cc: messages go from a logger's front buffer, swapped out by its periodic syncLoop,
// to the queue of an AsyncLogger, whose thread appends batch after batch to dated, rotated files.

module Logs {
  import opened Bytes

  type Msg = seq<byte>

  /** A log file is named by its date and number; everything else in the name is the same for all. */
  datatype Name = Name(date: int, no: nat)

  /** Files on disk; a name that is not a key is a file that does not exist. */
  type Disk = map<Name, seq<byte>>

  /** What a synchronous logger hands to `printf`: text that is printed as it is, or a format with directives. */
  datatype Printed = Nothing | Text(text: seq<byte>) | Format(format: seq<byte>)

  const PERCENT: byte := 37

  /** The writer's state: `names` lists the files it has opened, the last of which may be open now. */
  datatype Writer = Writer(date: int, no: nat, isOpen: bool, names: seq<Name>, disk: Disk)

  /** No date is negative, so the first batch always finds a new one. */
  function NewWriter(disk: Disk): Writer {
    Writer(-1, 0, false, [], disk)
  }

  /** The open file. */
  function Current(w: Writer): Name
    requires w.names != []
  {
    w.names[|w.names| - 1]
  }

  function SizeOf(disk: Disk, name: Name): nat {
    if name in disk then |disk[name]| else 0
  }

  /** `fopen` in append mode: the file is created if it does not exist. */
  function Open(w: Writer, name: Name): (w': Writer)
    ensures w'.names != [] && Current(w') == name && name in w'.disk
  {
    w.(isOpen := true, names := w.names + [name],
       disk := if name in w.disk then w.disk else w.disk[name := []])
  }

  /** A new date starts again at number 0 and opens a new file; so does the first batch. */
  function Dated(w: Writer, date: int): (w': Writer)
    requires w.isOpen ==> w.names != [] && Current(w) in w.disk
    ensures w'.isOpen && w'.names != [] && Current(w') in w'.disk
  {
    if date != w.date then Open(w.(date := date, no := 0), Name(date, 0))
    else if !w.isOpen then Open(w, Name(date, w.no))
    else w
  }

  /** One step to the next number when the open file has grown beyond the limit. */
  function Rotated(w: Writer, max: int): (w': Writer)
    requires w.isOpen && w.names != []
    ensures w'.isOpen && w'.names != []
    ensures Current(w) in w.disk ==> Current(w') in w'.disk
  {
    if SizeOf(w.disk, Current(w)) > max then Open(w.(no := w.no + 1), Name(w.date, w.no + 1)) else w
  }

  function Append(w: Writer, bs: seq<byte>): (w': Writer)
    requires w.names != [] && Current(w) in w.disk
    ensures w'.names == w.names && Current(w') in w'.disk && w'.isOpen == w.isOpen
  {
    w.(disk := w.disk[Current(w) := w.disk[Current(w)] + bs])
  }

  ghost predicate Ready(w: Writer) {
    w.isOpen ==> w.names != [] && Current(w) in w.disk
  }

  /** One turn of the writer's loop on a batch. */
  function Written(w: Writer, max: int, date: int, batch: seq<Msg>): (w': Writer)
    requires Ready(w)
    ensures Ready(w') && w'.isOpen
  {
    Append(Rotated(Dated(w, date), max), Flatten(batch))
  }

  /** The line end is printed exactly when the message has no NUL. */
  lemma {:induction false} CStringLine(msg: Msg)
    ensures CString(msg + [10]) == if 0 in msg then CString(msg) else msg + [10]
  {
    if msg == [] {
      CStringIs([10]);
    } else {
      assert msg == [msg[0]] + msg[1..] && (msg + [10])[1..] == msg[1..] + [10];
      CStringLine(msg[1..]);
    }
  }

  // ---------------------------------------------------------------- the objects

  class AsyncLogger {
    const maxFileSize: int
    var buffer: seq<seq<Msg>>
    var date: int
    var no: nat
    var isOpen: bool
    var reopenFlag: bool
    var stopFlag: bool
    var disk: Disk
    var fileHandler: Name
    ghost var names: seq<Name>

    ghost function State(): Writer
      reads this
    {
      Writer(date, no, isOpen, names, disk)
    }

    ghost predicate Valid()
      reads this
    {
      !reopenFlag && Ready(State()) && (isOpen ==> fileHandler == Current(State()))
    }

    constructor (maxFileSize: int, disk: Disk)
      ensures Valid() && State() == NewWriter(disk) && buffer == [] && !stopFlag
      ensures this.maxFileSize == maxFileSize
    {
      this.maxFileSize, this.disk := maxFileSize, disk;
      buffer, date, no, isOpen, reopenFlag, stopFlag, fileHandler := [], -1, 0, false, false, false, Name(0, 0);
      names := [];
    }

    method PushLogBuffer(vec: seq<Msg>)
      modifies this`buffer
      ensures buffer == old(buffer) + [vec]
    {
      buffer := buffer + [vec];
    }

    method Stop()
      modifies this`stopFlag
      ensures stopFlag
    {
      stopFlag := true;
    }

    method OpenFile(name: Name)
      modifies this`isOpen, this`fileHandler, this`disk, this`names
      ensures State() == Open(old(State()), name) && fileHandler == name
    {
      isOpen, fileHandler, names := true, name, names + [name];
      if name !in disk {
        disk := disk[name := []];
      }
    }

    /** The date and the open file, up to the check of the file's size. */
    method Redate(date: int)
      requires Valid()
      modifies this
      ensures Valid() && isOpen && State() == Dated(old(State()), date)
      ensures buffer == old(buffer) && stopFlag == old(stopFlag)
    {
      if date != this.date {
        reopenFlag := true;
        no := 0;
        this.date := date;
      }
      if !isOpen {
        reopenFlag := true;
      }
      if reopenFlag {
        OpenFile(Name(date, no));
        reopenFlag := false;
      }
    }

    method Rotate()
      requires Valid() && isOpen
      modifies this
      ensures Valid() && isOpen && State() == Rotated(old(State()), maxFileSize)
      ensures buffer == old(buffer) && stopFlag == old(stopFlag)
    {
      if |disk[fileHandler]| > maxFileSize {
        no := no + 1;
        OpenFile(Name(date, no));
        reopenFlag := false;
      }
    }

    /** The loop over the messages of a batch; an empty message writes nothing. */
    method WriteAll(tmp: seq<Msg>)
      requires Valid() && isOpen
      modifies this`disk
      ensures Valid() && State() == Append(old(State()), Flatten(tmp))
    {
      ghost var was := disk[fileHandler];
      for i := 0 to |tmp|
        invariant fileHandler in disk && disk[fileHandler] == was + Flatten(tmp[..i])
        invariant disk == old(disk)[fileHandler := disk[fileHandler]]
      {
        FlattenConcat(tmp[..i], [tmp[i]]);
        assert tmp[..i] + [tmp[i]] == tmp[..i + 1] && Flatten([tmp[i]]) == tmp[i];
        assert was + (Flatten(tmp[..i]) + tmp[i]) == (was + Flatten(tmp[..i])) + tmp[i];
        if |tmp[i]| > 0 {
          disk := disk[fileHandler := disk[fileHandler] + tmp[i]];
        }
      }
      assert tmp[..|tmp|] == tmp;
    }

    /** A turn of `loop` on a batch it has taken from the queue; it stays until it is told to stop. */
    method WriteBatch(tmp: seq<Msg>, date: int) returns (done: bool)
      requires Valid()
      modifies this
      ensures Valid() && State() == Written(old(State()), maxFileSize, date, tmp)
      ensures done == old(stopFlag) && buffer == old(buffer)
    {
      Redate(date);
      Rotate();
      WriteAll(tmp);
      done := stopFlag;
    }

    /** What `loop` takes under its lock. */
    method TakeBuffer() returns (tmp: seq<Msg>)
      requires buffer != []
      modifies this`buffer
      ensures tmp == old(buffer)[0] && buffer == old(buffer)[1..]
    {
      tmp := buffer[0];
      buffer := buffer[1..];
    }
  }

  class Logger {
    const isAsync: bool
    var buffer: seq<Msg>
    var appBuffer: seq<Msg>
    const asyncLog: AsyncLogger
    const asyncAppLog: AsyncLogger

    constructor (isAsync: bool, asyncLog: AsyncLogger, asyncAppLog: AsyncLogger)
      ensures buffer == appBuffer == [] && this.isAsync == isAsync
      ensures this.asyncLog == asyncLog && this.asyncAppLog == asyncAppLog
    {
      this.isAsync, this.asyncLog, this.asyncAppLog := isAsync, asyncLog, asyncAppLog;
      buffer, appBuffer := [], [];
    }

    /** `pushLog`; a synchronous logger prints the message as a C string, and any `%` in it is a directive. */
    method PushLog(msg: Msg) returns (printed: Printed)
      modifies this`buffer
      ensures isAsync ==> buffer == old(buffer) + [msg] && printed == Nothing
      ensures !isAsync ==> buffer == old(buffer)
      ensures !isAsync && 0 !in msg ==> printed == if PERCENT in msg then Format(msg + [10]) else Text(msg + [10])
      ensures !isAsync && 0 in msg ==>
                printed == if PERCENT in CString(msg) then Format(CString(msg)) else Text(CString(msg))
    {
      if !isAsync {
        var cstr := CString(msg + [10]);
        CStringLine(msg);
        return if PERCENT in cstr then Format(cstr) else Text(cstr);
      }
      buffer := buffer + [msg];
      printed := Nothing;
    }

    method PushAppLog(msg: Msg)
      modifies this`appBuffer
      ensures appBuffer == old(appBuffer) + [msg]
    {
      appBuffer := appBuffer + [msg];
    }

    /** `syncLoop`: each buffer is emptied into the queue of its own writer, unless it is empty. */
    method SyncLoop()
      requires asyncLog != asyncAppLog
      modifies this, asyncLog`buffer, asyncAppLog`buffer
      ensures buffer == appBuffer == []
      ensures asyncLog.buffer == old(asyncLog.buffer) + Batch(old(buffer))
      ensures asyncAppLog.buffer == old(asyncAppLog.buffer) + Batch(old(appBuffer))
    {
      var tmpVec := buffer;
      buffer := [];
      if tmpVec != [] {
        asyncLog.PushLogBuffer(tmpVec);
      }
      var tmpAppVec := appBuffer;
      appBuffer := [];
      if tmpAppVec != [] {
        asyncAppLog.PushLogBuffer(tmpAppVec);
      }
    }
  }

  /** What one swap adds to a queue. */
  function Batch(vec: seq<Msg>): seq<seq<Msg>> {
    if vec == [] then [] else [vec]
  }
}
