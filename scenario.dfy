/** A worked run of the receive loop: a writer started in the first hour of
    1970, a message holding two records of that hour, then a message whose
    record belongs to the next hour, read while the clock shows 01:00. */
module Scenario {
  import opened Text
  import opened Decimal
  import opened Rollover
  import opened Writer
  import opened WriterLemmas

  const First := "A,1000,x\nA,1001,y\n"
  const Second := "A,3600000,z\n"

  /** Splitting a payload of one newline-terminated line gives the line and
      the empty segment after the final newline. */
  lemma SplitOneLine(c: string)
    requires '\n' !in c
    ensures Split(c + "\n", '\n') == [c, ""]
  {
    assert c + "\n" == c + ['\n'] + "";
    SplitAfterSeparator(c, "", '\n');
    SplitNoSeparator("", '\n');
  }

  lemma SplitTwoLines(a: string, b: string)
    requires '\n' !in a && '\n' !in b
    ensures Split(a + "\n" + (b + "\n"), '\n') == [a, b, ""]
  {
    assert a + "\n" + (b + "\n") == a + ['\n'] + (b + "\n");
    SplitAfterSeparator(a, b + "\n", '\n');
    SplitOneLine(b);
  }

  /** The records of the two payloads and their timestamps. */
  lemma Timestamps()
    ensures Kept("A,1000,x") && Timestamp("A,1000,x") == 1000
    ensures Kept("A,1001,y") && Timestamp("A,1001,y") == 1001
    ensures Kept("A,3600000,z") && Timestamp("A,3600000,z") == HourMs
    ensures !Kept("")
  {
    assert Itoa(1000) == "1000" && Itoa(1001) == "1001" && Itoa(HourMs) == "3600000";
    assert "A" + "," + Itoa(1000) + ",x" == "A,1000,x";
    assert "A" + "," + Itoa(1001) + ",y" == "A,1001,y";
    assert "A" + "," + Itoa(HourMs) + ",z" == "A,3600000,z";
    TimestampOfItoa("A", 1000, ",x");
    TimestampOfItoa("A", 1001, ",y");
    TimestampOfItoa("A", HourMs, ",z");
    KeptIffComma("");
  }

  /** StepLines on a literal sequence of three lines. */
  lemma StepLinesThree(dir: string, clock: nat -> int, s: WriterState, a: string, b: string, c: string)
    ensures StepLines(dir, clock, s, [a, b, c]) == StepLine(dir, clock, StepLines(dir, clock, s, [a, b]), c)
  {
    assert [a, b, c][..2] == [a, b];
  }

  /** A payload of two records before nextRoll and a final newline: both
      records go to the open file, in order. */
  lemma FirstPayload(dir: string, clock: nat -> int, s: WriterState, a: string, b: string)
    requires Invariant(dir, clock, s) && !s.exited
    requires Kept(a) && Timestamp(a) < s.nextRoll
    requires Kept(b) && Timestamp(b) < s.nextRoll
    ensures var r := StepLines(dir, clock, s, [a, b, ""]);
      && Invariant(dir, clock, r) && !r.exited
      && r.nextRoll == s.nextRoll && r.file == s.file && r.readings == s.readings
      && r.fs == s.fs[s.file.path := s.fs[s.file.path] + (a + "\n") + (b + "\n")]
  {
    var s1 := StepLine(dir, clock, s, a);
    StepWithinWindow(dir, clock, s, a);
    var s2 := StepLine(dir, clock, s1, b);
    StepWithinWindow(dir, clock, s1, b);
    StepSkipsLineWithoutComma(dir, clock, s2, "");
    StepLinesTwo(dir, clock, s, a, b);
    StepLinesThree(dir, clock, s, a, b, "");
    assert s2.fs == s.fs[s.file.path := s.fs[s.file.path] + (a + "\n") + (b + "\n")];
  }

  /** A payload of one record at or after nextRoll and a final newline:
      the open staging file is renamed, and the record starts the next
      window's staging file. */
  lemma SecondPayload(dir: string, clock: nat -> int, s: WriterState, c: string)
    requires Invariant(dir, clock, s) && !s.exited && TmpPath(s.fullpath) in s.fs
    requires Kept(c) && Timestamp(c) >= s.nextRoll
    requires TmpPath(FullPath(dir, GenFileName(NextRollOver(clock(s.readings)).start))) !in s.fs
    ensures var r := StepLines(dir, clock, s, [c, ""]);
      && !r.exited
      && s.fullpath in r.fs && r.fs[s.fullpath] == s.fs[TmpPath(s.fullpath)]
      && r.file.path == TmpPath(FullPath(dir, GenFileName(NextRollOver(clock(s.readings)).start)))
      && r.file.path in r.fs && r.fs[r.file.path] == c + "\n"
  {
    var r1 := StepLine(dir, clock, s, c);
    StepRollOver(dir, clock, s, c);
    StepSkipsLineWithoutComma(dir, clock, r1, "");
    StepLinesTwo(dir, clock, s, c, "");
    var r := StepLines(dir, clock, s, [c, ""]);
    assert r == r1;
    var tmp := TmpPath(FullPath(dir, GenFileName(NextRollOver(clock(s.readings)).start)));
    assert r1.file.path == tmp;
    assert r1.fs[tmp] == c + "\n";
  }

  /** A writer started on an empty disk: the startup staging file is the
      only file, and it is empty. */
  lemma StartOnEmptyDisk(dir: string, clock: nat -> int)
    ensures var s0 := Start(dir, clock, map[]);
      && Invariant(dir, clock, s0) && !s0.exited
      && s0.readings == 1 && s0.nextRoll == NextRollOver(clock(0)).close
      && s0.fullpath == StartPath(dir, clock) && s0.file.path == TmpPath(StartPath(dir, clock))
      && s0.fs.Keys == {s0.file.path} && s0.fs[s0.file.path] == ""
  {
    StartOpensStagingFile(dir, clock, map[]);
  }

  /** The first payload on a writer whose staging file is empty:
      afterwards that file holds both records, and no other file changes. */
  lemma FirstMessage(dir: string, clock: nat -> int, s0: WriterState, a: string, b: string)
    requires Invariant(dir, clock, s0) && !s0.exited && s0.fs[s0.file.path] == ""
    requires Kept(a) && Timestamp(a) < s0.nextRoll
    requires Kept(b) && Timestamp(b) < s0.nextRoll
    ensures var s := StepLines(dir, clock, s0, [a, b, ""]);
      && Invariant(dir, clock, s) && !s.exited
      && s.readings == s0.readings && s.nextRoll == s0.nextRoll && s.file == s0.file
      && s.fs == s0.fs[s0.file.path := a + "\n" + (b + "\n")]
  {
    FirstPayload(dir, clock, s0, a, b);
    assert "" + (a + "\n") + (b + "\n") == a + "\n" + (b + "\n");
  }

  /** Two records of the first window, then one at or after its end while
      the clock has moved to the next hour: the first window's file is
      finalized with the first two records, and the next window's staging
      file begins with the third. */
  lemma TwoMessages(dir: string, clock: nat -> int, a: string, b: string, c: string)
    requires NextRollOver(clock(0)).close == NextRollOver(clock(1)).start
    requires Kept(a) && Timestamp(a) < NextRollOver(clock(0)).close
    requires Kept(b) && Timestamp(b) < NextRollOver(clock(0)).close
    requires Kept(c) && Timestamp(c) >= NextRollOver(clock(0)).close
    ensures var s := StepLines(dir, clock, Start(dir, clock, map[]), [a, b, ""]);
      var r := StepLines(dir, clock, s, [c, ""]);
      && !r.exited
      && StartPath(dir, clock) in r.fs && r.fs[StartPath(dir, clock)] == a + "\n" + (b + "\n")
      && r.file.path == TmpPath(FullPath(dir, GenFileName(NextRollOver(clock(1)).start)))
      && r.file.path in r.fs && r.fs[r.file.path] == c + "\n"
  {
    var s0 := Start(dir, clock, map[]);
    StartOnEmptyDisk(dir, clock);
    FirstMessage(dir, clock, s0, a, b);
    var s := StepLines(dir, clock, s0, [a, b, ""]);
    assert s.fs.Keys == {s0.file.path};
    TmpPathsDiffer(dir, NextRollOver(clock(0)).start, NextRollOver(clock(1)).start);
    assert TmpPath(FullPath(dir, GenFileName(NextRollOver(clock(1)).start))) !in s.fs;
    SecondPayload(dir, clock, s, c);
  }

  /** The run above on the concrete payloads, for a writer started during
      the first hour of 1970 that reads the clock again during the second
      hour. */
  lemma EndToEnd(dir: string, clock: nat -> int)
    requires 0 <= clock(0) < HourMs <= clock(1) < 2 * HourMs
    ensures var s := StepLines(dir, clock, Start(dir, clock, map[]), Split(First, '\n'));
      var r := StepLines(dir, clock, s, Split(Second, '\n'));
      && !r.exited
      && StartPath(dir, clock) == FullPath(dir, GenFileName(0))
      && StartPath(dir, clock) in r.fs && r.fs[StartPath(dir, clock)] == First
      && r.file.path == TmpPath(FullPath(dir, GenFileName(HourMs)))
      && r.file.path in r.fs && r.fs[r.file.path] == Second
  {
    WindowIsTruncation(clock(0), 0);
    WindowIsTruncation(clock(1), HourMs);
    assert "A,1000,x" + "\n" + ("A,1001,y" + "\n") == First;
    assert "A,3600000,z" + "\n" == Second;
    SplitTwoLines("A,1000,x", "A,1001,y");
    SplitOneLine("A,3600000,z");
    Timestamps();
    TwoMessages(dir, clock, "A,1000,x", "A,1001,y", "A,3600000,z");
  }
}
