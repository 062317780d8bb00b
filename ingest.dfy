/** The receive loop of the store subscriber: each message is filtered on
    its "id" property, decompressed, split into lines that are fed to the
    rotating writer, and acknowledged.

    Decompression is the function `inflate`: None stands for a payload on
    which gzip.NewReader fails, after which ioutil.ReadAll dereferences the
    nil reader and the process panics; Some(text) is whatever ReadAll
    returned, the error being ignored. */
module Ingest {
  import opened Wrappers
  import opened Text
  import opened Disk
  import opened Rollover
  import opened Writer
  import opened WriterLemmas

  /** A broker message: its properties and its compressed payload. */
  datatype Message = Message(properties: map<string, string>, payload: seq<bv8>)

  /** props["id"]: a Go map yields "" for a missing key. */
  function PropertyId(props: map<string, string>): string {
    if "id" in props then props["id"] else ""
  }

  /** The writer together with the messages acknowledged so far. */
  datatype StoreState = StoreState(writer: WriterState, acks: seq<Message>)

  /** One iteration of the receive loop. */
  function Process(dir: string, clock: nat -> int, radarId: string, inflate: seq<bv8> -> Option<string>,
                   st: StoreState, m: Message): StoreState
  {
    if st.writer.exited then st
    else if PropertyId(m.properties) != radarId then st.(acks := st.acks + [m])
    else match inflate(m.payload)
      case None => st.(writer := st.writer.(exited := true))
      case Some(text) =>
        var w := StepLines(dir, clock, st.writer, Split(text, '\n'));
        if w.exited then st.(writer := w) else StoreState(w, st.acks + [m])
  }

  /** The receive loop over a sequence of messages, in order. */
  function ProcessAll(dir: string, clock: nat -> int, radarId: string, inflate: seq<bv8> -> Option<string>,
                      st: StoreState, msgs: seq<Message>): StoreState
    decreases |msgs|
  {
    if msgs == [] then st
    else Process(dir, clock, radarId, inflate,
                 ProcessAll(dir, clock, radarId, inflate, st, msgs[..|msgs| - 1]), msgs[|msgs| - 1])
  }

  class Subscriber {
    const radarId: string
    const inflate: seq<bv8> -> Option<string>
    const writer: RotatingWriter
    var acks: seq<Message>

    function State(): StoreState
      reads this, writer
    {
      StoreState(writer.State(), acks)
    }

    /** The set-up of main before the receive loop. */
    constructor (dir: string, clock: nat -> int, radarId: string, inflate: seq<bv8> -> Option<string>, fs: FileSystem)
      ensures this.radarId == radarId && this.inflate == inflate
      ensures fresh(writer) && writer.dir == dir && writer.clock == clock
      ensures State() == StoreState(Start(dir, clock, fs), [])
    {
      this.radarId := radarId;
      this.inflate := inflate;
      writer := new RotatingWriter(dir, clock, fs);
      acks := [];
    }

    /** The body of the receive loop for one message. */
    method Receive(m: Message)
      requires !writer.exited
      modifies this, writer
      ensures State() == Process(writer.dir, writer.clock, radarId, inflate, old(State()), m)
    {
      if PropertyId(m.properties) == radarId {
        var data := inflate(m.payload);
        if data.None? {
          writer.exited := true;
          return;
        }
        writer.WriteLines(Split(data.value, '\n'));
        if writer.exited {
          return;
        }
      }
      acks := acks + [m];
    }

    /** The receive loop; it stops only when the process terminates. */
    method Run(msgs: seq<Message>)
      modifies this, writer
      ensures State() == ProcessAll(writer.dir, writer.clock, radarId, inflate, old(State()), msgs)
    {
      var i := 0;
      while i < |msgs| && !writer.exited
        invariant 0 <= i <= |msgs|
        invariant State() == ProcessAll(writer.dir, writer.clock, radarId, inflate, old(State()), msgs[..i])
      {
        assert msgs[..i + 1][..i] == msgs[..i];
        Receive(msgs[i]);
        i := i + 1;
      }
      if i < |msgs| {
        ProcessAllAfterExit(writer.dir, writer.clock, radarId, inflate, old(State()), msgs[..i], msgs[i..]);
        assert msgs[..i] + msgs[i..] == msgs;
      } else {
        assert msgs[..i] == msgs;
      }
    }
  }

  /** Once the process has terminated, later messages change nothing. */
  lemma {:induction false} ProcessAllAfterExit(dir: string, clock: nat -> int, radarId: string,
                                               inflate: seq<bv8> -> Option<string>, st: StoreState,
                                               xs: seq<Message>, ys: seq<Message>)
    requires ProcessAll(dir, clock, radarId, inflate, st, xs).writer.exited
    ensures ProcessAll(dir, clock, radarId, inflate, st, xs + ys) == ProcessAll(dir, clock, radarId, inflate, st, xs)
    decreases |ys|
  {
    if ys == [] {
      assert xs + ys == xs;
    } else {
      var init := ys[..|ys| - 1];
      ProcessAllAfterExit(dir, clock, radarId, inflate, st, xs, init);
      assert (xs + ys)[..|xs + ys| - 1] == xs + init;
    }
  }

  /** A message for another radar is acknowledged and changes nothing
      else: no file is touched and no write is made. */
  lemma FilteredMessageOnlyAcked(dir: string, clock: nat -> int, radarId: string,
                                 inflate: seq<bv8> -> Option<string>, st: StoreState, m: Message)
    requires !st.writer.exited && PropertyId(m.properties) != radarId
    ensures Process(dir, clock, radarId, inflate, st, m) == StoreState(st.writer, st.acks + [m])
  {
  }

  /** A message without an "id" property is processed exactly when the
      configured radar id is empty. */
  lemma MissingIdMatchesOnlyEmptyRadarId(props: map<string, string>, radarId: string)
    requires "id" !in props
    ensures PropertyId(props) == radarId <==> radarId == ""
  {
  }

  /** Every message handled is acknowledged once, in arrival order; the
      loop stops short of acknowledging only the message during which the
      process terminated. */
  lemma {:induction false} AcksEveryMessageOnce(dir: string, clock: nat -> int, radarId: string,
                                                inflate: seq<bv8> -> Option<string>, st: StoreState,
                                                msgs: seq<Message>)
    requires !st.writer.exited
    ensures var r := ProcessAll(dir, clock, radarId, inflate, st, msgs);
      && |st.acks| <= |r.acks| <= |st.acks| + |msgs|
      && r.acks == st.acks + msgs[..|r.acks| - |st.acks|]
      && (!r.writer.exited <==> |r.acks| == |st.acks| + |msgs|)
    decreases |msgs|
  {
    if msgs != [] {
      var init := msgs[..|msgs| - 1];
      AcksEveryMessageOnce(dir, clock, radarId, inflate, st, init);
      var m := ProcessAll(dir, clock, radarId, inflate, st, init);
      var r := ProcessAll(dir, clock, radarId, inflate, st, msgs);
      if !m.writer.exited {
        assert msgs[..|m.acks| - |st.acks|] == init;
        assert msgs[..|m.acks| - |st.acks| + 1] == init + [msgs[|msgs| - 1]];
      } else {
        assert msgs[..|m.acks| - |st.acks|] == init[..|m.acks| - |st.acks|];
      }
    }
  }

  /** The lines one message adds to the writes, unless it ends the
      process. */
  function MessageWrites(radarId: string, inflate: seq<bv8> -> Option<string>, m: Message): seq<string> {
    if PropertyId(m.properties) == radarId && inflate(m.payload).Some?
    then Terminated(Split(inflate(m.payload).value, '\n')) else []
  }

  /** What a sequence of messages writes: for each message for this radar,
      in order, its kept lines each followed by "\n". */
  function ExpectedWrites(radarId: string, inflate: seq<bv8> -> Option<string>, msgs: seq<Message>): seq<string>
    decreases |msgs|
  {
    if msgs == [] then []
    else ExpectedWrites(radarId, inflate, msgs[..|msgs| - 1]) + MessageWrites(radarId, inflate, msgs[|msgs| - 1])
  }

  /** One message that does not end the process writes the kept lines of
      its payload when it is for this radar, and nothing otherwise. */
  lemma ProcessWrites(dir: string, clock: nat -> int, radarId: string,
                      inflate: seq<bv8> -> Option<string>, st: StoreState, m: Message)
    requires !Process(dir, clock, radarId, inflate, st, m).writer.exited
    ensures Texts(Process(dir, clock, radarId, inflate, st, m).writer.writes)
            == Texts(st.writer.writes) + MessageWrites(radarId, inflate, m)
  {
    var r := Process(dir, clock, radarId, inflate, st, m);
    if PropertyId(m.properties) == radarId && inflate(m.payload).Some? {
      var lines := Split(inflate(m.payload).value, '\n');
      assert r.writer == StepLines(dir, clock, st.writer, lines);
      StepLinesWritesKeptLines(dir, clock, st.writer, lines);
    } else {
      assert r.writer == st.writer;
    }
  }

  /** The last message of a run that does not end the process: the run
      before it did not end it either, and it adds its own writes. */
  lemma ProcessAllLastWrites(dir: string, clock: nat -> int, radarId: string,
                             inflate: seq<bv8> -> Option<string>, st: StoreState, msgs: seq<Message>)
    requires msgs != [] && !ProcessAll(dir, clock, radarId, inflate, st, msgs).writer.exited
    ensures var m := ProcessAll(dir, clock, radarId, inflate, st, msgs[..|msgs| - 1]);
      && !m.writer.exited
      && Texts(ProcessAll(dir, clock, radarId, inflate, st, msgs).writer.writes)
         == Texts(m.writer.writes) + MessageWrites(radarId, inflate, msgs[|msgs| - 1])
  {
    var m := ProcessAll(dir, clock, radarId, inflate, st, msgs[..|msgs| - 1]);
    ProcessWrites(dir, clock, radarId, inflate, m, msgs[|msgs| - 1]);
  }

  /** Unless the process terminates, the lines written are exactly the
      kept lines of the messages for this radar, in arrival order. */
  lemma {:induction false} ProcessAllWrites(dir: string, clock: nat -> int, radarId: string,
                                            inflate: seq<bv8> -> Option<string>, st: StoreState,
                                            msgs: seq<Message>)
    requires !ProcessAll(dir, clock, radarId, inflate, st, msgs).writer.exited
    ensures Texts(ProcessAll(dir, clock, radarId, inflate, st, msgs).writer.writes)
            == Texts(st.writer.writes) + ExpectedWrites(radarId, inflate, msgs)
    decreases |msgs|
  {
    if msgs != [] {
      var init, last := msgs[..|msgs| - 1], msgs[|msgs| - 1];
      ProcessAllLastWrites(dir, clock, radarId, inflate, st, msgs);
      ProcessAllWrites(dir, clock, radarId, inflate, st, init);
      ConcatAssoc(Texts(st.writer.writes), ExpectedWrites(radarId, inflate, init), MessageWrites(radarId, inflate, last));
    }
  }

  /** One message that ends the process writes a prefix of what it would
      have written: the kept lines of its first lines, and no others. */
  lemma ProcessExitWrites(dir: string, clock: nat -> int, radarId: string,
                          inflate: seq<bv8> -> Option<string>, st: StoreState, m: Message)
    requires !st.writer.exited
    ensures var r := Process(dir, clock, radarId, inflate, st, m);
      Texts(st.writer.writes) <= Texts(r.writer.writes) <= Texts(st.writer.writes) + MessageWrites(radarId, inflate, m)
  {
    var r := Process(dir, clock, radarId, inflate, st, m);
    if PropertyId(m.properties) == radarId && inflate(m.payload).Some? {
      var lines := Split(inflate(m.payload).value, '\n');
      assert r.writer == StepLines(dir, clock, st.writer, lines);
      StepLinesWritesPrefix(dir, clock, st.writer, lines);
      var k :| 0 <= k <= |lines| && Texts(r.writer.writes) == Texts(st.writer.writes) + Terminated(lines[..k]);
      TerminatedPrefix(lines, k);
    } else {
      assert r.writer.writes == st.writer.writes;
    }
  }

  /** Whether or not the process ends, the lines written lie between the
      kept lines of the acknowledged messages and those of all messages:
      a message is acknowledged only after all its lines are written, and
      nothing is written that a matching message does not hold. */
  lemma {:induction false} ProcessAllWritesPrefix(dir: string, clock: nat -> int, radarId: string,
                                                  inflate: seq<bv8> -> Option<string>, st: StoreState,
                                                  msgs: seq<Message>)
    requires !st.writer.exited
    ensures var r := ProcessAll(dir, clock, radarId, inflate, st, msgs);
      var base := Texts(st.writer.writes);
      && |st.acks| <= |r.acks| <= |st.acks| + |msgs|
      && base + ExpectedWrites(radarId, inflate, msgs[..|r.acks| - |st.acks|]) <= Texts(r.writer.writes)
      && Texts(r.writer.writes) <= base + ExpectedWrites(radarId, inflate, msgs)
    decreases |msgs|
  {
    var r := ProcessAll(dir, clock, radarId, inflate, st, msgs);
    var base := Texts(st.writer.writes);
    AcksEveryMessageOnce(dir, clock, radarId, inflate, st, msgs);
    if msgs == [] {
    } else if !r.writer.exited {
      ProcessAllWrites(dir, clock, radarId, inflate, st, msgs);
      assert msgs[..|r.acks| - |st.acks|] == msgs;
    } else {
      var init, last := msgs[..|msgs| - 1], msgs[|msgs| - 1];
      var m := ProcessAll(dir, clock, radarId, inflate, st, init);
      var all := ExpectedWrites(radarId, inflate, msgs);
      assert all == ExpectedWrites(radarId, inflate, init) + MessageWrites(radarId, inflate, last);
      if m.writer.exited {
        ProcessAllWritesPrefix(dir, clock, radarId, inflate, st, init);
        AcksEveryMessageOnce(dir, clock, radarId, inflate, st, init);
        assert r == m;
        assert msgs[..|r.acks| - |st.acks|] == init[..|m.acks| - |st.acks|];
        ConcatAssoc(base, ExpectedWrites(radarId, inflate, init), MessageWrites(radarId, inflate, last));
      } else {
        ProcessAllWrites(dir, clock, radarId, inflate, st, init);
        AcksEveryMessageOnce(dir, clock, radarId, inflate, st, init);
        ProcessExitWrites(dir, clock, radarId, inflate, m, last);
        assert r.acks == m.acks;
        assert msgs[..|r.acks| - |st.acks|] == init;
        ConcatAssoc(base, ExpectedWrites(radarId, inflate, init), MessageWrites(radarId, inflate, last));
      }
    }
  }

  /** One iteration of the receive loop keeps the writer invariant and
      never goes back on a clock reading. */
  lemma ProcessInvariant(dir: string, clock: nat -> int, radarId: string,
                         inflate: seq<bv8> -> Option<string>, st: StoreState, m: Message)
    requires Invariant(dir, clock, st.writer)
    ensures var r := Process(dir, clock, radarId, inflate, st, m);
      Invariant(dir, clock, r.writer) && r.writer.readings >= st.writer.readings
  {
    var r := Process(dir, clock, radarId, inflate, st, m);
    if st.writer.exited || PropertyId(m.properties) != radarId {
      assert r.writer == st.writer;
    } else if inflate(m.payload).None? {
      assert r.writer == st.writer.(exited := true);
    } else {
      var lines := Split(inflate(m.payload).value, '\n');
      StepLinesInvariant(dir, clock, st.writer, lines);
      assert r.writer == StepLines(dir, clock, st.writer, lines);
    }
  }

  /** The invariant holds after any sequence of messages, and the clock
      readings taken only grow. */
  lemma {:induction false} ProcessAllInvariant(dir: string, clock: nat -> int, radarId: string,
                                               inflate: seq<bv8> -> Option<string>, st: StoreState,
                                               msgs: seq<Message>)
    requires Invariant(dir, clock, st.writer)
    ensures var r := ProcessAll(dir, clock, radarId, inflate, st, msgs);
      Invariant(dir, clock, r.writer) && r.writer.readings >= st.writer.readings
    decreases |msgs|
  {
    if msgs != [] {
      var init := msgs[..|msgs| - 1];
      ProcessAllInvariant(dir, clock, radarId, inflate, st, init);
      ProcessInvariant(dir, clock, radarId, inflate, ProcessAll(dir, clock, radarId, inflate, st, init), msgs[|msgs| - 1]);
    }
  }

  /** With a clock that never runs backwards, nextRoll and the window
      start never decrease across messages. */
  lemma ProcessAllNextRollNeverDecreases(dir: string, clock: nat -> int, radarId: string,
                                         inflate: seq<bv8> -> Option<string>, st: StoreState,
                                         msgs: seq<Message>)
    requires forall i: nat, j: nat :: i <= j ==> clock(i) <= clock(j)
    requires Invariant(dir, clock, st.writer)
    ensures st.writer.nextRoll <= ProcessAll(dir, clock, radarId, inflate, st, msgs).writer.nextRoll
    ensures st.writer.startTime <= ProcessAll(dir, clock, radarId, inflate, st, msgs).writer.startTime
  {
    var r := ProcessAll(dir, clock, radarId, inflate, st, msgs);
    ProcessAllInvariant(dir, clock, radarId, inflate, st, msgs);
    NextRollOverMonotone(clock(st.writer.readings - 1), clock(r.writer.readings - 1));
  }
}
