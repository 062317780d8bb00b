/** The roll-over renames the path computed at startup, because the
    roll-over assigns the new path to a block-local `fullpath`
    (subscribers/store/main.go:313) instead of the outer one (:234).
    As written, the second roll-over into a new window renames a staging
    file that no longer exists, and the process ends. The corrected step,
    which moves `fullpath` along with the open file, never fails. */
module Findings {
  import opened Wrappers
  import opened Text
  import opened Decimal
  import opened Rollover
  import opened Disk
  import opened Writer
  import opened WriterLemmas
  import opened Ingest

  /** As written: the startup window, a roll-over into a different hour,
      then a second roll-over. The first roll-over renames the startup
      staging file; the second tries to rename it again, fails, and the
      process ends before writing the second line. */
  lemma ShadowedSecondRollOverExits(dir: string, clock: nat -> int, fs: FileSystem, first: string, second: string)
    requires NextRollOver(clock(0)).start != NextRollOver(clock(1)).start
    requires Kept(first) && Timestamp(first) >= NextRollOver(clock(0)).close
    requires Kept(second) && Timestamp(second) >= NextRollOver(clock(1)).close
    ensures var r := StepLines(dir, clock, Start(dir, clock, fs), [first, second]);
      && r.exited
      && r.writes == [Write(TmpPath(FullPath(dir, GenFileName(NextRollOver(clock(1)).start))), first + "\n")]
  {
    var s0 := Start(dir, clock, fs);
    StartOpensStagingFile(dir, clock, fs);
    StepLinesTwo(dir, clock, s0, first, second);
    var s1 := StepLine(dir, clock, s0, first);
    StepRollOver(dir, clock, s0, first);
    assert s1.readings == 2 && s1.fullpath == s0.fullpath;
    TmpPathsDiffer(dir, NextRollOver(clock(0)).start, NextRollOver(clock(1)).start);
    assert TmpPath(s1.fullpath) !in s1.fs;
    StepRollOverFails(dir, clock, s1, second);
  }

  /** A concrete run: the clock reads 00:00 and then 01:00 on 1970-01-01,
      and a payload holds a line stamped 01:00 and one stamped 02:00. The
      second line ends the process, although every file it needs exists. */
  lemma ShadowingExample()
    ensures var clock := (i: nat) => i * HourMs;
      var r := StepLines("data", clock, Start("data", clock, map[]),
                         ["a," + Itoa(HourMs), "b," + Itoa(2 * HourMs)]);
      r.exited && |r.writes| == 1
  {
    var clock := (i: nat) => i * HourMs;
    assert clock(0) == 0 && clock(1) == HourMs;
    assert "a" + "," + Itoa(HourMs) + "" == "a," + Itoa(HourMs);
    assert "b" + "," + Itoa(2 * HourMs) + "" == "b," + Itoa(2 * HourMs);
    WindowIsTruncation(clock(0), 0);
    WindowIsTruncation(clock(1), HourMs);
    TimestampOfItoa("a", HourMs, "");
    TimestampOfItoa("b", 2 * HourMs, "");
    ShadowedSecondRollOverExits("data", clock, map[], "a," + Itoa(HourMs), "b," + Itoa(2 * HourMs));
  }

  /** The states the program as written can reach: the writer invariant,
      and once the open file has moved away from the startup window, the
      startup staging file no longer exists. */
  predicate Reach(dir: string, clock: nat -> int, s: WriterState) {
    && Invariant(dir, clock, s)
    && (!s.exited && s.startTime != NextRollOver(clock(0)).start ==> TmpPath(s.fullpath) !in s.fs)
  }

  lemma StartReach(dir: string, clock: nat -> int, fs: FileSystem)
    ensures Reach(dir, clock, Start(dir, clock, fs))
  {
    StartOpensStagingFile(dir, clock, fs);
  }

  /** Every step keeps Reach: a write to a later window's staging file
      never recreates the startup staging file, and a roll-over removes
      it. */
  lemma StepReach(dir: string, clock: nat -> int, s: WriterState, line: string)
    requires Reach(dir, clock, s)
    ensures Reach(dir, clock, StepLine(dir, clock, s, line))
  {
    var start0 := NextRollOver(clock(0)).start;
    if s.exited || !Kept(line) {
      assert StepLine(dir, clock, s, line) == s;
    } else if Timestamp(line) < s.nextRoll {
      StepWithinWindow(dir, clock, s, line);
      if s.startTime != start0 {
        TmpPathsDiffer(dir, s.startTime, start0);
      }
    } else if TmpPath(s.fullpath) in s.fs {
      StepRollOver(dir, clock, s, line);
      var w := NextRollOver(clock(s.readings));
      if w.start != start0 {
        TmpPathsDiffer(dir, w.start, start0);
      }
    } else {
      StepRollOverFails(dir, clock, s, line);
    }
  }

  lemma {:induction false} StepLinesReach(dir: string, clock: nat -> int, s: WriterState, lines: seq<string>)
    requires Reach(dir, clock, s)
    ensures Reach(dir, clock, StepLines(dir, clock, s, lines))
    decreases |lines|
  {
    if lines != [] {
      StepLinesReach(dir, clock, s, lines[..|lines| - 1]);
      StepReach(dir, clock, StepLines(dir, clock, s, lines[..|lines| - 1]), lines[|lines| - 1]);
    }
  }

  /** One iteration of the receive loop keeps Reach. */
  lemma ProcessReach(dir: string, clock: nat -> int, radarId: string,
                     inflate: seq<bv8> -> Option<string>, st: StoreState, msg: Message)
    requires Reach(dir, clock, st.writer)
    ensures Reach(dir, clock, Process(dir, clock, radarId, inflate, st, msg).writer)
  {
    var r := Process(dir, clock, radarId, inflate, st, msg);
    if st.writer.exited || PropertyId(msg.properties) != radarId {
      assert r.writer == st.writer;
    } else if inflate(msg.payload).None? {
      assert r.writer == st.writer.(exited := true);
    } else {
      var lines := Split(inflate(msg.payload).value, '\n');
      StepLinesReach(dir, clock, st.writer, lines);
      assert r.writer == StepLines(dir, clock, st.writer, lines);
    }
  }

  /** Reach holds after any sequence of messages, so it holds in every
      state of the receive loop that starts from startup. */
  lemma {:induction false} ProcessAllReach(dir: string, clock: nat -> int, radarId: string,
                                           inflate: seq<bv8> -> Option<string>, st: StoreState,
                                           msgs: seq<Message>)
    requires Reach(dir, clock, st.writer)
    ensures Reach(dir, clock, ProcessAll(dir, clock, radarId, inflate, st, msgs).writer)
    decreases |msgs|
  {
    if msgs != [] {
      var init := msgs[..|msgs| - 1];
      ProcessAllReach(dir, clock, radarId, inflate, st, init);
      ProcessReach(dir, clock, radarId, inflate, ProcessAll(dir, clock, radarId, inflate, st, init), msgs[|msgs| - 1]);
    }
  }

  /** As written: in any reachable state whose open file belongs to a
      window other than the startup one, a line that reaches nextRoll
      renames the startup staging file, which is gone, and the process
      ends without writing the line and without touching a file. */
  lemma MovedRollOverExits(dir: string, clock: nat -> int, s: WriterState, line: string)
    requires Reach(dir, clock, s) && !s.exited && s.startTime != NextRollOver(clock(0)).start
    requires Kept(line) && Timestamp(line) >= s.nextRoll
    ensures var r := StepLine(dir, clock, s, line);
      r.exited && r.fs == s.fs && r.writes == s.writes
  {
    StepRollOverFails(dir, clock, s, line);
  }

  /** Corrected roll-over: the outer `fullpath` follows the window that is
      opened, so the next roll-over renames the file that is open. */
  function RollCorrected(dir: string, clock: nat -> int, s: WriterState): WriterState {
    var r := Roll(dir, clock, s);
    if r.exited then r else r.(fullpath := FullPath(dir, r.filename))
  }

  function StepLineCorrected(dir: string, clock: nat -> int, s: WriterState, line: string): WriterState {
    if s.exited || !Kept(line) then s
    else
      AppendLine(if Timestamp(line) >= s.nextRoll then RollCorrected(dir, clock, s) else s, line)
  }

  function StepLinesCorrected(dir: string, clock: nat -> int, s: WriterState, lines: seq<string>): WriterState
    decreases |lines|
  {
    if lines == [] then s
    else StepLineCorrected(dir, clock, StepLinesCorrected(dir, clock, s, lines[..|lines| - 1]), lines[|lines| - 1])
  }

  /** The corrected invariant: `fullpath` is the final path of the current
      window, so the open file is the staging file of `fullpath`. */
  predicate Tracks(dir: string, clock: nat -> int, s: WriterState) {
    Consistent(dir, clock, s) && (!s.exited ==> s.fullpath == FullPath(dir, s.filename))
  }

  /** The corrected roll-over renames the open staging file to its final
      name and opens the next window, whose path `fullpath` now holds. */
  lemma RollCorrectedRenamesOpenFile(dir: string, clock: nat -> int, s: WriterState)
    requires Tracks(dir, clock, s) && !s.exited
    ensures var w := NextRollOver(clock(s.readings));
      var full := FullPath(dir, GenFileName(w.start));
      var t := RollCorrected(dir, clock, s);
      && Tracks(dir, clock, t)
      && !t.exited && t.fullpath == full && t.file == Handle(TmpPath(full), true)
      && t.startTime == w.start && t.nextRoll == w.close && t.filename == GenFileName(w.start)
      && t.readings == s.readings + 1 && t.writes == s.writes
      && TmpPath(full) in t.fs && t.fs[s.fullpath] == s.fs[s.file.path]
      && (TmpPath(full) != s.file.path ==> s.file.path !in t.fs)
      && (TmpPath(full) !in s.fs || TmpPath(full) == s.file.path ==> t.fs[TmpPath(full)] == "")
      && (TmpPath(full) != s.file.path ==> t.fs[TmpPath(full)] == Content(s.fs, TmpPath(full)))
      && forall p :: p != s.fullpath && p != s.file.path && p != TmpPath(full) ==> (p in t.fs <==> p in s.fs) && Content(t.fs, p) == Content(s.fs, p)
  {
    var w := NextRollOver(clock(s.readings));
    var full := FullPath(dir, GenFileName(w.start));
    var tmp := TmpPath(full);
    var fs1 := Rename(s.fs, TmpPath(s.fullpath), s.fullpath).value;
    assert fs1[s.fullpath] == s.fs[s.file.path];
    var c := s.(file := s.file.(open := false), fs := fs1);
    var o := OpenNextWindow(dir, clock, c);
    assert Roll(dir, clock, s) == o;
    OpenNextWindowConsistent(dir, clock, c);
    var t := o.(fullpath := full);
    assert RollCorrected(dir, clock, s) == t;
    assert t.file.path in t.fs && t.readings - 1 == s.readings;
    assert Consistent(dir, clock, t);
    TmpPathIsNotFinal(dir, s.startTime, full);
    assert t.fs == fs1[tmp := Content(fs1, tmp)];
    assert t.fs[s.fullpath] == s.fs[s.file.path];
  }

  /** Corrected roll-over: the file that was open is published under its
      own final name, and the triggering line opens the next window's
      staging file. */
  lemma CorrectedRollOverPublishesOpenFile(dir: string, clock: nat -> int, s: WriterState, line: string)
    requires Tracks(dir, clock, s) && !s.exited
    requires Kept(line) && Timestamp(line) >= s.nextRoll
    ensures var r := StepLineCorrected(dir, clock, s, line);
      var w := NextRollOver(clock(s.readings));
      && Tracks(dir, clock, r) && !r.exited
      && r.startTime == w.start && r.nextRoll == w.close
      && r.fs[s.fullpath] == s.fs[s.file.path]
      && (TmpPath(r.fullpath) != s.file.path ==> s.file.path !in r.fs)
      && (TmpPath(r.fullpath) !in s.fs || TmpPath(r.fullpath) == s.file.path ==>
            r.fs[TmpPath(r.fullpath)] == line + "\n")
      && (TmpPath(r.fullpath) != s.file.path ==>
            r.fs[TmpPath(r.fullpath)] == Content(s.fs, TmpPath(r.fullpath)) + (line + "\n"))
      && r.writes == s.writes + [Write(TmpPath(r.fullpath), line + "\n")]
      && forall p :: p != s.fullpath && p != s.file.path && p != TmpPath(r.fullpath) ==> (p in r.fs <==> p in s.fs) && Content(r.fs, p) == Content(s.fs, p)
  {
    var t := RollCorrected(dir, clock, s);
    RollCorrectedRenamesOpenFile(dir, clock, s);
    TmpPathIsNotFinal(dir, s.startTime, t.fullpath);
    var r := AppendLine(t, line);
    assert StepLineCorrected(dir, clock, s, line) == r;
    AppendLineConsistent(dir, clock, t, line);
    assert r.fs[s.fullpath] == t.fs[s.fullpath];
  }

  lemma CorrectedStepTracks(dir: string, clock: nat -> int, s: WriterState, line: string)
    requires Tracks(dir, clock, s) && !s.exited
    ensures Tracks(dir, clock, StepLineCorrected(dir, clock, s, line))
    ensures !StepLineCorrected(dir, clock, s, line).exited
  {
    if Kept(line) {
      if Timestamp(line) >= s.nextRoll {
        CorrectedRollOverPublishesOpenFile(dir, clock, s, line);
      } else {
        assert StepLineCorrected(dir, clock, s, line) == AppendLine(s, line);
        AppendLineConsistent(dir, clock, s, line);
      }
    }
  }

  /** Corrected: no sequence of lines makes the process end. */
  lemma {:induction false} CorrectedNeverExits(dir: string, clock: nat -> int, s: WriterState, lines: seq<string>)
    requires Tracks(dir, clock, s) && !s.exited
    ensures Tracks(dir, clock, StepLinesCorrected(dir, clock, s, lines))
    ensures !StepLinesCorrected(dir, clock, s, lines).exited
    decreases |lines|
  {
    if lines != [] {
      var init := lines[..|lines| - 1];
      CorrectedNeverExits(dir, clock, s, init);
      CorrectedStepTracks(dir, clock, StepLinesCorrected(dir, clock, s, init), lines[|lines| - 1]);
    }
  }

  /** Startup satisfies the corrected invariant. */
  lemma StartTracks(dir: string, clock: nat -> int, fs: FileSystem)
    ensures Tracks(dir, clock, Start(dir, clock, fs)) && !Start(dir, clock, fs).exited
  {
    StartOpensStagingFile(dir, clock, fs);
  }
}
