/** What the rotating writer guarantees, stated over its step functions. */
module WriterLemmas {
  import opened Wrappers
  import opened Text
  import opened Decimal
  import opened Rollover
  import opened Disk
  import opened Writer

  /** The texts of a sequence of writes, in order. */
  function Texts(ws: seq<Write>): seq<string>
    decreases |ws|
  {
    if ws == [] then [] else Texts(ws[..|ws| - 1]) + [ws[|ws| - 1].text]
  }

  /** The lines of a payload that are kept, each followed by "\n". */
  function Terminated(lines: seq<string>): seq<string>
    decreases |lines|
  {
    if lines == [] then []
    else
      var last := lines[|lines| - 1];
      Terminated(lines[..|lines| - 1]) + (if Kept(last) then [last + "\n"] else [])
  }

  /** The path of the file opened at startup. */
  function StartPath(dir: string, clock: nat -> int): string {
    FullPath(dir, GenFileName(NextRollOver(clock(0)).start))
  }

  /** The writer's invariant as the program is written: Consistent, and the
      path it renames is still the startup path. */
  predicate Invariant(dir: string, clock: nat -> int, s: WriterState) {
    Consistent(dir, clock, s) && s.fullpath == StartPath(dir, clock)
  }

  /** A line is kept exactly when it holds a comma. */
  lemma KeptIffComma(line: string)
    ensures Kept(line) <==> ',' in line
  {
    SingleFieldIffNoSeparator(line, ',');
  }

  /** A line whose second field is strconv.Itoa(n) is kept, and its
      timestamp is n, whatever the first field and the fields after it. */
  lemma TimestampOfItoa(p: string, n: int, rest: string)
    requires ',' !in p && MinInt64 <= n <= MaxInt64
    requires rest == [] || rest[0] == ','
    ensures Kept(p + "," + Itoa(n) + rest) && Timestamp(p + "," + Itoa(n) + rest) == n
  {
    var digits := Itoa(n);
    assert ',' !in digits by {
      if n < 0 {
        assert digits == "-" + NatToString(-n);
        assert forall i :: 1 <= i < |digits| ==> digits[i] == NatToString(-n)[i - 1];
      }
    }
    assert p + "," + digits + rest == p + [','] + (digits + rest);
    SplitAfterSeparator(p, digits + rest, ',');
    if rest == [] {
      assert digits + rest == digits;
      SplitNoSeparator(digits, ',');
    } else {
      assert digits + rest == digits + [','] + rest[1..];
      SplitAfterSeparator(digits, rest[1..], ',');
    }
    ParseIntItoa(n);
  }

  /** A staging path never equals a final path. */
  lemma TmpPathIsNotFinal(dir: string, t: int, p: string)
    ensures TmpPath(p) != FullPath(dir, GenFileName(t))
  {
    var f := FullPath(dir, GenFileName(t));
    assert f[|f| - 1] == 'v';
    assert TmpPath(p)[|TmpPath(p)| - 1] == 'p';
  }

  /** Windows with different starts have different staging paths. */
  lemma TmpPathsDiffer(dir: string, a: int, b: int)
    requires a % HourMs == 0 && b % HourMs == 0 && a != b
    ensures TmpPath(FullPath(dir, GenFileName(a))) != TmpPath(FullPath(dir, GenFileName(b)))
  {
    var na, nb := GenFileName(a), GenFileName(b);
    if TmpPath(FullPath(dir, na)) == TmpPath(FullPath(dir, nb)) {
      assert FullPath(dir, na) == TmpPath(FullPath(dir, na))[..|TmpPath(FullPath(dir, na))| - 4];
      assert FullPath(dir, nb) == TmpPath(FullPath(dir, nb))[..|TmpPath(FullPath(dir, nb))| - 4];
      if dir != "" {
        assert na == FullPath(dir, na)[|dir| + 1..];
        assert nb == FullPath(dir, nb)[|dir| + 1..];
      }
      GenFileNameInjective(a, b);
    }
  }

  /** Startup opens the staging file of the first clock reading's window,
      keeping what a previous run left in it and touching no other file. */
  lemma StartOpensStagingFile(dir: string, clock: nat -> int, fs: FileSystem)
    ensures var s := Start(dir, clock, fs);
      && Invariant(dir, clock, s)
      && !s.exited && s.writes == []
      && s.nextRoll == NextRollOver(clock(0)).close
      && s.file.path == TmpPath(s.fullpath)
      && s.fs[s.file.path] == Content(fs, s.file.path)
      && forall p :: p != s.file.path ==> (p in s.fs <==> p in fs) && Content(s.fs, p) == Content(fs, p)
  {
  }

  /** A line without a comma is skipped: nothing changes. */
  lemma StepSkipsLineWithoutComma(dir: string, clock: nat -> int, s: WriterState, line: string)
    requires ',' !in line
    ensures StepLine(dir, clock, s, line) == s
  {
    KeptIffComma(line);
  }

  /** A timestamp before nextRoll: the line and one "\n" are appended to
      the open file, and the window, file name and handle stay as they
      are. */
  lemma StepWithinWindow(dir: string, clock: nat -> int, s: WriterState, line: string)
    requires Invariant(dir, clock, s) && !s.exited
    requires Kept(line) && Timestamp(line) < s.nextRoll
    ensures var r := StepLine(dir, clock, s, line);
      && Invariant(dir, clock, r) && !r.exited
      && r.nextRoll == s.nextRoll && r.startTime == s.startTime
      && r.filename == s.filename && r.file == s.file && r.readings == s.readings
      && r.fs == s.fs[s.file.path := s.fs[s.file.path] + (line + "\n")]
      && r.writes == s.writes + [Write(s.file.path, line + "\n")]
  {
    AppendLineConsistent(dir, clock, s, line);
  }

  /** Writing a line to the open staging file appends it to that file and
      to the writes, changes nothing else, and keeps the state consistent. */
  lemma AppendLineConsistent(dir: string, clock: nat -> int, t: WriterState, line: string)
    requires Consistent(dir, clock, t) && !t.exited
    ensures var r := AppendLine(t, line);
      && Consistent(dir, clock, r) && !r.exited
      && r == t.(fs := t.fs[t.file.path := t.fs[t.file.path] + (line + "\n")],
                 writes := t.writes + [Write(t.file.path, line + "\n")])
  {
    var text := line + "\n";
    var r := AppendLine(t, line);
    var fs' := t.fs[t.file.path := t.fs[t.file.path] + text];
    assert r == t.(fs := fs', writes := t.writes + [Write(t.file.path, text)]) by {
      assert Append(t.fs, t.file.path, text) == fs';
    }
    assert Consistent(dir, clock, r) by {
      assert r.file.path in r.fs;
    }
  }

  /** A timestamp at or after nextRoll while the startup staging file
      exists: that file is renamed to the startup path, the new window is
      the hour of the next clock reading (not of the timestamp), and the
      line is the first thing written to the new staging file. */
  lemma StepRollOver(dir: string, clock: nat -> int, s: WriterState, line: string)
    requires Invariant(dir, clock, s) && !s.exited
    requires Kept(line) && Timestamp(line) >= s.nextRoll
    requires TmpPath(s.fullpath) in s.fs
    ensures var r := StepLine(dir, clock, s, line);
      var w := NextRollOver(clock(s.readings));
      var tmp := TmpPath(FullPath(dir, GenFileName(w.start)));
      && Invariant(dir, clock, r) && !r.exited
      && r.startTime == w.start && r.nextRoll == w.close
      && r.filename == GenFileName(w.start) && r.readings == s.readings + 1
      && r.fullpath == s.fullpath
      && r.file == Handle(tmp, true)
      && r.fs[s.fullpath] == s.fs[TmpPath(s.fullpath)]
      && (tmp != TmpPath(s.fullpath) ==> TmpPath(s.fullpath) !in r.fs)
      && (tmp !in s.fs || tmp == TmpPath(s.fullpath) ==> r.fs[tmp] == line + "\n")
      && (tmp != TmpPath(s.fullpath) ==> r.fs[tmp] == Content(s.fs, tmp) + (line + "\n"))
      && r.writes == s.writes + [Write(tmp, line + "\n")]
      && forall p :: p != s.fullpath && p != TmpPath(s.fullpath) && p != tmp ==> (p in r.fs <==> p in s.fs) && Content(r.fs, p) == Content(s.fs, p)
  {
    var w := NextRollOver(clock(s.readings));
    var tmp := TmpPath(FullPath(dir, GenFileName(w.start)));
    var t := Roll(dir, clock, s);
    RollRenamesStartFile(dir, clock, s);
    var r := AppendLine(t, line);
    assert StepLine(dir, clock, s, line) == r;
    AppendLineConsistent(dir, clock, t, line);
    TmpPathIsNotFinal(dir, NextRollOver(clock(0)).start, FullPath(dir, GenFileName(w.start)));
    assert s.fullpath != tmp;
    assert r.fs[s.fullpath] == t.fs[s.fullpath];
    assert (tmp !in s.fs || tmp == TmpPath(s.fullpath) ==> t.fs[tmp] == "");
  }

  /** Opening the next window reads the clock once more and opens the
      staging file of the hour that reading falls in; the result is
      consistent whatever the state it starts from. */
  lemma OpenNextWindowConsistent(dir: string, clock: nat -> int, c: WriterState)
    requires !c.exited
    ensures var t := OpenNextWindow(dir, clock, c);
      var w := NextRollOver(clock(c.readings));
      && Consistent(dir, clock, t) && !t.exited
      && t.readings == c.readings + 1
      && t.startTime == w.start && t.nextRoll == w.close && t.filename == GenFileName(w.start)
      && t.file == Handle(TmpPath(FullPath(dir, GenFileName(w.start))), true)
      && t.fullpath == c.fullpath && t.writes == c.writes
  {
    var t := OpenNextWindow(dir, clock, c);
    assert t.readings - 1 == c.readings;
    assert t.file.path in t.fs;
  }

  /** The roll-over alone, when the staging file of `fullpath` exists: it
      is renamed to `fullpath` and the staging file of the next window is
      opened. */
  lemma RollRenamesStartFile(dir: string, clock: nat -> int, s: WriterState)
    requires Invariant(dir, clock, s) && !s.exited
    requires TmpPath(s.fullpath) in s.fs
    ensures var t := Roll(dir, clock, s);
      var w := NextRollOver(clock(s.readings));
      var tmp := TmpPath(FullPath(dir, GenFileName(w.start)));
      && Invariant(dir, clock, t) && !t.exited
      && t.startTime == w.start && t.nextRoll == w.close
      && t.filename == GenFileName(w.start) && t.readings == s.readings + 1
      && t.fullpath == s.fullpath && t.writes == s.writes
      && t.file == Handle(tmp, true) && tmp in t.fs
      && s.fullpath in t.fs && t.fs[s.fullpath] == s.fs[TmpPath(s.fullpath)]
      && (tmp != TmpPath(s.fullpath) ==> TmpPath(s.fullpath) !in t.fs)
      && (tmp !in s.fs || tmp == TmpPath(s.fullpath) ==> t.fs[tmp] == "")
      && (tmp != TmpPath(s.fullpath) ==> t.fs[tmp] == Content(s.fs, tmp))
      && forall p :: p != s.fullpath && p != TmpPath(s.fullpath) && p != tmp ==> (p in t.fs <==> p in s.fs) && Content(t.fs, p) == Content(s.fs, p)
  {
    var w := NextRollOver(clock(s.readings));
    var tmp := TmpPath(FullPath(dir, GenFileName(w.start)));
    TmpPathIsNotFinal(dir, NextRollOver(clock(0)).start, FullPath(dir, GenFileName(w.start)));
    var fs1 := Rename(s.fs, TmpPath(s.fullpath), s.fullpath).value;
    assert fs1[s.fullpath] == s.fs[TmpPath(s.fullpath)];
    assert tmp !in s.fs || tmp == TmpPath(s.fullpath) ==> tmp !in fs1;
    var c := s.(file := s.file.(open := false), fs := fs1);
    var t := OpenNextWindow(dir, clock, c);
    assert Roll(dir, clock, s) == t;
    OpenNextWindowConsistent(dir, clock, c);
    assert t.fs == fs1[tmp := Content(fs1, tmp)];
  }

  /** A timestamp at or after nextRoll when the startup staging file is
      gone: the rename fails and the process ends without writing. */
  lemma StepRollOverFails(dir: string, clock: nat -> int, s: WriterState, line: string)
    requires Invariant(dir, clock, s) && !s.exited
    requires Kept(line) && Timestamp(line) >= s.nextRoll
    requires TmpPath(s.fullpath) !in s.fs
    ensures var r := StepLine(dir, clock, s, line);
      && r.exited && !r.file.open
      && r.fs == s.fs && r.writes == s.writes
  {
  }

  /** The clock is read, or the process ends, exactly when the timestamp
      reaches nextRoll: a timestamp equal to nextRoll rolls over. */
  lemma StepRollsIff(dir: string, clock: nat -> int, s: WriterState, line: string)
    requires Invariant(dir, clock, s) && !s.exited && Kept(line)
    ensures var r := StepLine(dir, clock, s, line);
      (r.readings == s.readings + 1 || r.exited) <==> Timestamp(line) >= s.nextRoll
  {
    if Timestamp(line) >= s.nextRoll {
      if TmpPath(s.fullpath) in s.fs {
        StepRollOver(dir, clock, s, line);
      }
    }
  }

  /** A timestamp field that is not a number is only logged: ParseInt
      gives 0, which is below a positive nextRoll, so the line is appended
      to the open file. */
  lemma StepUnparsableTimestamp(dir: string, clock: nat -> int, s: WriterState, line: string)
    requires Invariant(dir, clock, s) && !s.exited && s.nextRoll > 0
    requires Kept(line) && ParseInt(Split(line, ',')[1]).status == ErrSyntax
    ensures var r := StepLine(dir, clock, s, line);
      && r.nextRoll == s.nextRoll && r.file == s.file
      && r.fs == s.fs[s.file.path := s.fs[s.file.path] + (line + "\n")]
  {
    StepWithinWindow(dir, clock, s, line);
  }

  /** Every step keeps the invariant, never goes back on a clock reading
      and only adds writes; the renamed path never changes. */
  lemma {:induction false} StepLineInvariant(dir: string, clock: nat -> int, s: WriterState, line: string)
    requires Invariant(dir, clock, s)
    ensures var r := StepLine(dir, clock, s, line);
      && Invariant(dir, clock, r)
      && r.readings >= s.readings
      && (s.exited ==> r.exited)
  {
    if s.exited || !Kept(line) {
      assert StepLine(dir, clock, s, line) == s;
    } else if Timestamp(line) < s.nextRoll {
      StepWithinWindow(dir, clock, s, line);
    } else if TmpPath(s.fullpath) in s.fs {
      StepRollOver(dir, clock, s, line);
    } else {
      StepRollOverFails(dir, clock, s, line);
    }
  }

  lemma {:induction false} StepLinesInvariant(dir: string, clock: nat -> int, s: WriterState, lines: seq<string>)
    requires Invariant(dir, clock, s)
    ensures var r := StepLines(dir, clock, s, lines);
      && Invariant(dir, clock, r)
      && r.readings >= s.readings
      && (s.exited ==> r.exited)
    decreases |lines|
  {
    if lines != [] {
      var init := lines[..|lines| - 1];
      StepLinesInvariant(dir, clock, s, init);
      StepLineInvariant(dir, clock, StepLines(dir, clock, s, init), lines[|lines| - 1]);
    }
  }

  /** StepLines on two lines: one step after the other. */
  lemma StepLinesTwo(dir: string, clock: nat -> int, s: WriterState, a: string, b: string)
    ensures StepLines(dir, clock, s, [a, b]) == StepLine(dir, clock, StepLine(dir, clock, s, a), b)
  {
    assert [a, b][..1] == [a] && [a][..0] == [];
    assert StepLines(dir, clock, s, [a]) == StepLine(dir, clock, s, a);
  }

  /** With a clock that never runs backwards, nextRoll never decreases. */
  lemma NextRollNeverDecreases(dir: string, clock: nat -> int, s: WriterState, lines: seq<string>)
    requires forall i: nat, j: nat :: i <= j ==> clock(i) <= clock(j)
    requires Invariant(dir, clock, s)
    ensures s.nextRoll <= StepLines(dir, clock, s, lines).nextRoll
    ensures s.startTime <= StepLines(dir, clock, s, lines).startTime
  {
    var r := StepLines(dir, clock, s, lines);
    StepLinesInvariant(dir, clock, s, lines);
    NextRollOverMonotone(clock(s.readings - 1), clock(r.readings - 1));
  }

  /** Unless the process ends, exactly the kept lines are written, in
      order, each unchanged and followed by one "\n". */
  lemma {:induction false} StepLinesWritesKeptLines(dir: string, clock: nat -> int, s: WriterState, lines: seq<string>)
    requires !StepLines(dir, clock, s, lines).exited
    ensures Texts(StepLines(dir, clock, s, lines).writes) == Texts(s.writes) + Terminated(lines)
    decreases |lines|
  {
    if lines == [] {
    } else {
      var init, last := lines[..|lines| - 1], lines[|lines| - 1];
      var m := StepLines(dir, clock, s, init);
      assert !m.exited;
      StepLinesWritesKeptLines(dir, clock, s, init);
      var r := StepLine(dir, clock, m, last);
      if Kept(last) {
        assert r.writes[..|r.writes| - 1] == m.writes;
        assert Texts(r.writes) == Texts(m.writes) + [last + "\n"];
        assert Terminated(lines) == Terminated(init) + [last + "\n"];
        ConcatAssoc(Texts(s.writes), Terminated(init), [last + "\n"]);
      } else {
        assert r == m;
        assert Terminated(lines) == Terminated(init) + [];
        assert Terminated(init) + [] == Terminated(init);
      }
    }
  }

  /** The kept lines of a prefix of the lines are a prefix of the kept
      lines. */
  lemma {:induction false} TerminatedPrefix(lines: seq<string>, k: nat)
    requires k <= |lines|
    ensures Terminated(lines[..k]) <= Terminated(lines)
    decreases |lines|
  {
    if k < |lines| {
      var init := lines[..|lines| - 1];
      TerminatedPrefix(init, k);
      assert init[..k] == lines[..k];
    } else {
      assert lines[..k] == lines;
    }
  }

  /** Whether or not the process ends, what is written is the kept lines
      of some first `k` lines, in order, each unchanged and followed by
      one "\n": a line without a comma is never written, and no line is
      written out of order. */
  lemma {:induction false} StepLinesWritesPrefix(dir: string, clock: nat -> int, s: WriterState, lines: seq<string>)
    ensures exists k ::
      0 <= k <= |lines| && Texts(StepLines(dir, clock, s, lines).writes) == Texts(s.writes) + Terminated(lines[..k])
    decreases |lines|
  {
    var r := StepLines(dir, clock, s, lines);
    if lines == [] {
      assert Texts(r.writes) == Texts(s.writes) + Terminated(lines[..0]);
    } else if !r.exited {
      StepLinesWritesKeptLines(dir, clock, s, lines);
      assert lines[..|lines|] == lines;
    } else {
      var init := lines[..|lines| - 1];
      var m := StepLines(dir, clock, s, init);
      if m.exited {
        StepLinesWritesPrefix(dir, clock, s, init);
        var k :| 0 <= k <= |init| && Texts(m.writes) == Texts(s.writes) + Terminated(init[..k]);
        assert init[..k] == lines[..k];
        assert r == m;
      } else {
        StepLinesWritesKeptLines(dir, clock, s, init);
        assert r.writes == m.writes;
        assert lines[..|init|] == init;
      }
    }
  }
}
