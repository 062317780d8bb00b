/** The hourly rotating CSV writer of the store subscriber: the state set
    up before the receive loop, and the per-line step that splits a line,
    reads its timestamp, rolls the file over when the timestamp reaches the
    end of the window, and appends the line.

    The wall clock is a sequence of readings `clock(0), clock(1), ...`,
    one consumed by each call of nextRollOver. */
module Writer {
  import opened Wrappers
  import opened Text
  import opened Decimal
  import opened Rollover
  import opened Disk

  /** filepath.Join(dir, name). */
  function FullPath(dir: string, name: string): string {
    if dir == "" then name else dir + "/" + name
  }

  /** The staging path a window is written to before it is renamed. */
  function TmpPath(path: string): string {
    path + ".tmp"
  }

  /** The *os.File the writer holds: the path it was opened at and
      whether it has been closed since. */
  datatype Handle = Handle(path: string, open: bool)

  /** One File.WriteString call: where it went and what it wrote. */
  datatype Write = Write(path: string, text: string)

  /** The variables of the receive loop: nextRoll, startTime, filename,
      the outer fullpath and file, together with the file system, the
      number of clock readings taken, the writes made so far and whether
      the process has terminated (log.Fatal or a panic). */
  datatype WriterState = WriterState(
    nextRoll: int,
    startTime: int,
    filename: string,
    fullpath: string,
    file: Handle,
    fs: FileSystem,
    readings: nat,
    writes: seq<Write>,
    exited: bool)

  /** The state before the first message: the window of the first clock
      reading and its staging file opened for appending. */
  function Start(dir: string, clock: nat -> int, fs: FileSystem): WriterState {
    var w := NextRollOver(clock(0));
    var name := GenFileName(w.start);
    var full := FullPath(dir, name);
    WriterState(w.close, w.start, name, full, Handle(TmpPath(full), true),
                OpenAppend(fs, TmpPath(full)), 1, [], false)
  }

  /** A line is written unless its comma split has exactly one field. */
  predicate Kept(line: string) {
    |Split(line, ',')| != 1
  }

  /** The second field parsed as a base-10 int64; on an error the value
      strconv returns is used as it is. */
  function Timestamp(line: string): int
    requires Kept(line)
  {
    ParseInt(Split(line, ',')[1]).value
  }

  /** The new window opened after a rename: a fresh clock reading, its
      file name, and its staging file opened for appending. `fullpath`
      keeps its value: the path computed here is a block-local variable. */
  function OpenNextWindow(dir: string, clock: nat -> int, s: WriterState): WriterState {
    var w := NextRollOver(clock(s.readings));
    var name := GenFileName(w.start);
    var tmp := TmpPath(FullPath(dir, name));
    s.(nextRoll := w.close, startTime := w.start, filename := name,
       file := Handle(tmp, true), fs := OpenAppend(s.fs, tmp), readings := s.readings + 1)
  }

  /** Roll-over: close the file, rename fullpath + ".tmp" to fullpath (the
      process ends when that fails), then open the next window. */
  function Roll(dir: string, clock: nat -> int, s: WriterState): WriterState {
    var closed := s.(file := s.file.(open := false));
    match Rename(s.fs, TmpPath(s.fullpath), s.fullpath)
    case None => closed.(exited := true)
    case Some(fs) => OpenNextWindow(dir, clock, closed.(fs := fs))
  }

  /** File.WriteString(line + "\n") on the open file, unless the process
      has ended. */
  function AppendLine(t: WriterState, line: string): WriterState {
    if t.exited then t
    else t.(fs := Append(t.fs, t.file.path, line + "\n"),
            writes := t.writes + [Write(t.file.path, line + "\n")])
  }

  /** The step for one line of a payload. */
  function StepLine(dir: string, clock: nat -> int, s: WriterState, line: string): WriterState {
    if s.exited || !Kept(line) then s
    else AppendLine(if Timestamp(line) >= s.nextRoll then Roll(dir, clock, s) else s, line)
  }

  /** The steps for a sequence of lines, in order. */
  function StepLines(dir: string, clock: nat -> int, s: WriterState, lines: seq<string>): WriterState
    decreases |lines|
  {
    if lines == [] then s
    else StepLine(dir, clock, StepLines(dir, clock, s, lines[..|lines| - 1]), lines[|lines| - 1])
  }

  /** What the writer keeps true between lines: the window is the hour of
      the last clock reading, the file name is that window's, and while the
      process runs the open handle is the window's staging file, which
      exists. */
  predicate Consistent(dir: string, clock: nat -> int, s: WriterState) {
    && s.readings >= 1
    && Window(s.startTime, s.nextRoll) == NextRollOver(clock(s.readings - 1))
    && s.filename == GenFileName(s.startTime)
    && (!s.exited ==> s.file == Handle(TmpPath(FullPath(dir, s.filename)), true) && s.file.path in s.fs)
  }

  class RotatingWriter {
    const dir: string
    const clock: nat -> int
    /** The path computed at startup. The roll-over inside the loop
        declares its own `fullpath`, so this one never changes. */
    const fullpath: string
    var nextRoll: int
    var startTime: int
    var filename: string
    var file: Handle
    var fs: FileSystem
    var readings: nat
    var writes: seq<Write>
    var exited: bool

    function State(): WriterState
      reads this
    {
      WriterState(nextRoll, startTime, filename, fullpath, file, fs, readings, writes, exited)
    }

    /** The set-up before the receive loop. */
    constructor (dir: string, clock: nat -> int, fs: FileSystem)
      ensures this.dir == dir && this.clock == clock
      ensures State() == Start(dir, clock, fs)
    {
      this.dir := dir;
      this.clock := clock;
      var w := NextRollOver(clock(0));
      var name := GenFileName(w.start);
      var full := FullPath(dir, name);
      nextRoll, startTime := w.close, w.start;
      filename := name;
      fullpath := full;
      this.fs := OpenAppend(fs, TmpPath(full));
      file := Handle(TmpPath(full), true);
      readings := 1;
      writes := [];
      exited := false;
    }

    /** The body of the loop over the lines of one payload. */
    method WriteLine(line: string)
      requires !exited
      modifies this
      ensures State() == StepLine(dir, clock, old(State()), line)
    {
      var lineSplit := Split(line, ',');
      if |lineSplit| == 1 {
        return;
      }
      var timestamp := ParseInt(lineSplit[1]).value;
      assert Kept(line) && timestamp == Timestamp(line);
      if timestamp >= nextRoll {
        RollOver();
        if exited {
          return;
        }
      }
      fs := Append(fs, file.path, line + "\n");
      writes := writes + [Write(file.path, line + "\n")];
    }

    /** The roll-over block: close the file, rename the staging file of the
        outer `fullpath`, read the clock, and open the new window's staging
        file through a block-local `fullpath`. */
    method RollOver()
      requires !exited
      modifies this
      ensures State() == Roll(dir, clock, old(State()))
    {
      ghost var closed := State().(file := file.(open := false));
      file := file.(open := false);
      var renamed := Rename(fs, TmpPath(fullpath), fullpath);
      if renamed.None? {
        exited := true;
        assert State() == closed.(exited := true);
        return;
      }
      fs := renamed.value;
      ghost var renamedState := State();
      assert renamedState == closed.(fs := renamed.value);
      var w := NextRollOver(clock(readings));
      var name := GenFileName(w.start);
      var fullpath := FullPath(dir, name);
      readings := readings + 1;
      nextRoll, startTime := w.close, w.start;
      filename := name;
      fs := OpenAppend(fs, TmpPath(fullpath));
      file := Handle(TmpPath(fullpath), true);
      assert State() == OpenNextWindow(dir, clock, renamedState);
    }

    /** The loop over the lines of one payload; it ends early only when the
        process has terminated. */
    method WriteLines(lines: seq<string>)
      modifies this
      ensures State() == StepLines(dir, clock, old(State()), lines)
    {
      var i := 0;
      while i < |lines| && !exited
        invariant 0 <= i <= |lines|
        invariant State() == StepLines(dir, clock, old(State()), lines[..i])
      {
        assert lines[..i + 1][..i] == lines[..i];
        WriteLine(lines[i]);
        i := i + 1;
      }
      if i < |lines| {
        StepLinesAfterExit(dir, clock, old(State()), lines[..i], lines[i..]);
        assert lines[..i] + lines[i..] == lines;
      } else {
        assert lines[..i] == lines;
      }
    }
  }

  /** consume(data): a fresh writer for the current window, then the loop
      over the lines of `data`. Nothing calls it in the program. */
  method Consume(dir: string, clock: nat -> int, fs: FileSystem, data: string) returns (w: RotatingWriter)
    ensures fresh(w)
    ensures w.State() == StepLines(dir, clock, Start(dir, clock, fs), Split(data, '\n'))
  {
    w := new RotatingWriter(dir, clock, fs);
    w.WriteLines(Split(data, '\n'));
  }

  /** Once the process has terminated, later lines change nothing. */
  lemma {:induction false} StepLinesAfterExit(dir: string, clock: nat -> int, s: WriterState, xs: seq<string>, ys: seq<string>)
    requires StepLines(dir, clock, s, xs).exited
    ensures StepLines(dir, clock, s, xs + ys) == StepLines(dir, clock, s, xs)
    decreases |ys|
  {
    if ys == [] {
      assert xs + ys == xs;
    } else {
      var init := ys[..|ys| - 1];
      StepLinesAfterExit(dir, clock, s, xs, init);
      assert (xs + ys)[..|xs + ys| - 1] == xs + init;
    }
  }
}
