/**
 * The client object (Beanstemc): one connection to a beanstalkd server, its
 * input stream read byte by byte or in bulk, its output stream written one
 * request at a time, and a method per protocol command.
 */
module Client {
  import opened Outcomes
  import opened JavaNumbers
  import opened JavaStrings
  import opened Framing
  import opened Jobs
  import opened Yaml
  import opened Protocol

  /**
   * A connection: the bytes the server has sent that the client has yet to
   * read (with the sizes the transport hands to bulk reads), and every byte
   * the client has written so far.
   */
  class Connection {
    var incoming: seq<byte>
    var bursts: seq<Burst>
    var outgoing: seq<byte>

    /** What is left to read, as the framing functions see it. */
    function State(): Stream
      reads this
    {
      Stream(incoming, bursts)
    }

    constructor (incoming: seq<byte>, bursts: seq<Burst>)
      ensures State() == Stream(incoming, bursts) && outgoing == []
    {
      this.incoming := incoming;
      this.bursts := bursts;
      outgoing := [];
    }

    /** out.write(bytes) */
    method Write(bytes: seq<byte>)
      modifies this
      ensures outgoing == old(outgoing) + bytes
      ensures incoming == old(incoming) && bursts == old(bursts)
    {
      outgoing := outgoing + bytes;
    }

    /** in.read(): the next byte, or -1 at the end of the stream. */
    method ReadByte() returns (b: int)
      modifies this
      ensures old(incoming) == [] ==> b == -1 && incoming == []
      ensures old(incoming) != [] ==> b == old(incoming)[0] as int && incoming == old(incoming)[1..]
      ensures bursts == old(bursts) && outgoing == old(outgoing)
    {
      if incoming == [] {
        b := -1;
      } else {
        b := incoming[0] as int;
        incoming := incoming[1..];
      }
    }

    /**
     * in.read(buf): one bulk read into the front of buf. It returns 0 for an
     * empty buffer, -1 at the end of the stream, and otherwise the count of
     * bytes it wrote over buf[0..count].
     */
    method ReadInto(buf: array<byte>) returns (k: int)
      modifies this, buf
      ensures buf.Length == 0 ==> k == 0 && State() == old(State()) && buf[..] == old(buf[..])
      ensures buf.Length > 0 && old(incoming) == [] ==> k == -1 && State() == old(State()) && buf[..] == old(buf[..])
      ensures buf.Length > 0 && old(incoming) != [] ==>
                k == Chunk(old(State()), buf.Length) && State() == Take(old(State()), k)
                && buf[..] == old(incoming)[..k] + old(buf[..])[k..]
      ensures outgoing == old(outgoing)
    {
      if buf.Length == 0 {
        return 0;
      }
      if incoming == [] {
        return -1;
      }
      k := Chunk(State(), buf.Length);
      var i := 0;
      while i < k
        invariant 0 <= i <= k
        invariant incoming == old(incoming) && bursts == old(bursts) && outgoing == old(outgoing)
        invariant forall j :: 0 <= j < i ==> buf[j] == incoming[j]
        invariant forall j :: i <= j < buf.Length ==> buf[j] == old(buf[j])
      {
        buf[i] := incoming[i];
        i := i + 1;
      }
      assert buf[..] == incoming[..k] + old(buf[..])[k..];
      incoming := incoming[k..];
      bursts := if bursts == [] then [] else bursts[1..];
    }

    /**
     * readResponseLine: appends each value read, as a character, until the one
     * just read is a line feed or the one before it was a carriage return;
     * then drops the last two characters and splits the rest on spaces. At
     * the end of the stream a read gives -1, appended as the character 0xFFFF,
     * so the loop ends there only right after a carriage return; otherwise it
     * never ends.
     */
    method ReadResponseLine() returns (r: Outcome<seq<string>>)
      requires HasLineEnd(incoming)
      modifies this
      ensures (r, State()) == ReadLine(old(State()))
      ensures outgoing == old(outgoing)
    {
      ghost var s := incoming;
      ghost var stop := LineEnd(s);
      var buf: string := [];
      var cur := ' ';
      var prev := ' ';
      while |buf| == 0 || (prev != '\r' && cur != '\n')
        invariant |buf| <= stop + 1
        invariant |buf| <= |s| ==> incoming == s[|buf|..] && buf == Text(s[..|buf|])
        invariant |buf| > |s| ==> incoming == [] && buf == Text(s) + [EndOfStream]
        invariant bursts == old(bursts) && outgoing == old(outgoing)
        invariant |buf| == 0 ==> cur == ' '
        invariant |buf| > 0 ==> cur == buf[|buf| - 1]
        invariant |buf| > 0 ==> prev == if |buf| > 1 then buf[|buf| - 2] else ' '
        invariant |buf| > 0 ==> (EndsAt(s, |buf| - 1) <==> !(prev != '\r' && cur != '\n'))
        decreases stop + 1 - |buf|
      {
        prev := cur;
        var b := ReadByte();
        cur := if b < 0 then EndOfStream else b as char;
        if |buf| < |s| {
          assert s[..|buf| + 1] == s[..|buf|] + [s[|buf|]];
          TextSnoc(s[..|buf|], s[|buf|]);
        } else {
          assert s[..|buf|] == s;
        }
        StopTest(s, |buf|, prev, cur);
        buf := buf + [cur];
      }
      LineOfBuffer(old(State()), buf);
      if |buf| < 2 {
        r := Fail(Runtime);
      } else {
        r := Ok(Split(buf[..|buf| - 2], " "));
      }
    }

    /**
     * readData(n): a zeroed buffer of n bytes (a negative n is a
     * NegativeArraySizeException), bulk reads into its front until their
     * counts add up to n, an IOException if the stream ends first, then two
     * single-byte reads whose values are dropped.
     */
    method ReadData(n: int32) returns (r: Outcome<seq<byte>>)
      modifies this
      ensures (r, State()) == ReadBody(old(State()), n)
      ensures outgoing == old(outgoing)
    {
      if n < 0 {
        return Fail(Runtime);
      }
      var data := new byte[n](_ => 0);
      ghost var target := Fill(State(), n as nat, Zeros(n), 0);
      assert data[..] == Zeros(n);
      var bytesRead := 0;
      while bytesRead < n
        invariant data.Length == n as int
        invariant Fill(State(), n as nat, data[..], bytesRead) == target
        invariant outgoing == old(outgoing)
        decreases n as int - bytesRead
      {
        var k := ReadInto(data);
        if k > 0 {
          bytesRead := bytesRead + k;
        } else {
          return Fail(Io(PREMATURE_END));
        }
      }
      ghost var before := State();
      var _ := ReadByte();
      var _ := ReadByte();
      assert State() == SkipTrailer(before);
      r := Ok(data[..]);
    }

    /** readJob: the status line, then a body only when the line announces a job. */
    method ReadJob() returns (r: Outcome<Job>)
      requires HasLineEnd(incoming)
      modifies this
      ensures (r, State()) == ReadJobFrom(old(State()))
      ensures outgoing == old(outgoing)
    {
      var resp := ReadResponseLine();
      match JobGate(resp)
      case Fail(f) =>
        r := Fail(f);
      case Ok((id, n)) =>
        var data := ReadData(n);
        match data
        case Ok(d) => r := Ok(Job(id, d));
        case Fail(f) => r := Fail(f);
    }

    /** readYaml: the status line, then a body only when the line is OK with a length. */
    method ReadYaml() returns (r: Outcome<seq<byte>>)
      requires HasLineEnd(incoming)
      modifies this
      ensures (r, State()) == ReadYamlFrom(old(State()))
      ensures outgoing == old(outgoing)
    {
      var resp := ReadResponseLine();
      match YamlGate(resp)
      case Fail(f) =>
        r := Fail(f);
      case Ok(n) =>
        r := ReadData(n);
    }

    // ------------------------------------------------------------ commands

    method Put(data: seq<byte>, priority: int64, delay: int32, ttr: int32) returns (r: Outcome<int64>)
      requires HasLineEnd(incoming)
      modifies this
      ensures outgoing == old(outgoing) + Encode(Command.Put(data, priority, delay, ttr))
      ensures (r, State()) == (PutReply(ReadLine(old(State())).0), ReadLine(old(State())).1)
    {
      ghost var before := outgoing;
      var line := Bytes(RequestText(Command.Put(data, priority, delay, ttr)) + CRLF);
      Write(line);
      Write(data);
      Write(Bytes(CRLF));
      Regroup(before + line, data, Bytes(CRLF));
      Regroup(before, line, data + Bytes(CRLF));
      var resp := ReadResponseLine();
      r := PutReply(resp);
    }

    method Use(tube: string) returns (r: Outcome<()>)
      requires HasLineEnd(incoming)
      modifies this
      ensures outgoing == old(outgoing) + Encode(Command.Use(tube))
      ensures (r, State()) == (ExpectReply(ReadLine(old(State())).0, "USING", ""), ReadLine(old(State())).1)
    {
      Write(Encode(Command.Use(tube)));
      var resp := ReadResponseLine();
      r := ExpectReply(resp, "USING", "");
    }

    /** reserve(timeout): reserve-with-timeout for a positive timeout, a plain reserve otherwise. */
    method Reserve(timeout: int32) returns (r: Outcome<Job>)
      requires HasLineEnd(incoming)
      modifies this
      ensures outgoing == old(outgoing) + Encode(Command.Reserve(timeout))
      ensures (r, State()) == ReadJobFrom(old(State()))
    {
      if timeout > 0 {
        Write(Bytes("reserve-with-timeout " + Decimal(timeout) + CRLF));
      } else {
        Write(Bytes("reserve" + CRLF));
      }
      r := ReadJob();
    }

    method Peek(id: int64) returns (r: Outcome<Job>)
      requires HasLineEnd(incoming)
      modifies this
      ensures outgoing == old(outgoing) + Encode(Command.Peek(id))
      ensures (r, State()) == ReadJobFrom(old(State()))
    {
      Write(Encode(Command.Peek(id)));
      r := ReadJob();
    }

    method PeekReady() returns (r: Outcome<Job>)
      requires HasLineEnd(incoming)
      modifies this
      ensures outgoing == old(outgoing) + Encode(Command.PeekReady)
      ensures (r, State()) == ReadJobFrom(old(State()))
    {
      Write(Encode(Command.PeekReady));
      r := ReadJob();
    }

    method PeekDelayed() returns (r: Outcome<Job>)
      requires HasLineEnd(incoming)
      modifies this
      ensures outgoing == old(outgoing) + Encode(Command.PeekDelayed)
      ensures (r, State()) == ReadJobFrom(old(State()))
    {
      Write(Encode(Command.PeekDelayed));
      r := ReadJob();
    }

    method PeekBuried() returns (r: Outcome<Job>)
      requires HasLineEnd(incoming)
      modifies this
      ensures outgoing == old(outgoing) + Encode(Command.PeekBuried)
      ensures (r, State()) == ReadJobFrom(old(State()))
    {
      Write(Encode(Command.PeekBuried));
      r := ReadJob();
    }

    method Delete(id: int64) returns (r: Outcome<()>)
      requires HasLineEnd(incoming)
      modifies this
      ensures outgoing == old(outgoing) + Encode(Command.Delete(id))
      ensures (r, State()) == (ExpectReply(ReadLine(old(State())).0, "DELETED", ", JOBID=[" + Decimal(id) + "]"),
                               ReadLine(old(State())).1)
    {
      Write(Encode(Command.Delete(id)));
      var resp := ReadResponseLine();
      r := ExpectReply(resp, "DELETED", ", JOBID=[" + Decimal(id) + "]");
    }

    method Release(id: int64, priority: int64, delay: int32) returns (r: Outcome<()>)
      requires HasLineEnd(incoming)
      modifies this
      ensures outgoing == old(outgoing) + Encode(Command.Release(id, priority, delay))
      ensures (r, State()) == (ExpectReply(ReadLine(old(State())).0, "RELEASED",
                                 ", [JOBID=" + Decimal(id) + ", PRIORITY=" + Decimal(priority) + ", DELAY=" + Decimal(delay) + "]"),
                               ReadLine(old(State())).1)
    {
      Write(Encode(Command.Release(id, priority, delay)));
      var resp := ReadResponseLine();
      r := ExpectReply(resp, "RELEASED",
             ", [JOBID=" + Decimal(id) + ", PRIORITY=" + Decimal(priority) + ", DELAY=" + Decimal(delay) + "]");
    }

    method Bury(id: int64, priority: int64) returns (r: Outcome<()>)
      requires HasLineEnd(incoming)
      modifies this
      ensures outgoing == old(outgoing) + Encode(Command.Bury(id, priority))
      ensures (r, State()) == (ExpectReply(ReadLine(old(State())).0, "BURIED",
                                 ", JOBID=[" + Decimal(id) + ", PRIORITY=" + Decimal(priority) + "]"),
                               ReadLine(old(State())).1)
    {
      Write(Encode(Command.Bury(id, priority)));
      var resp := ReadResponseLine();
      r := ExpectReply(resp, "BURIED", ", JOBID=[" + Decimal(id) + ", PRIORITY=" + Decimal(priority) + "]");
    }

    method Watch(tube: string) returns (r: Outcome<int32>)
      requires HasLineEnd(incoming)
      modifies this
      ensures outgoing == old(outgoing) + Encode(Command.Watch(tube))
      ensures (r, State()) == (CountReply(ReadLine(old(State())).0, "WATCHING", ""), ReadLine(old(State())).1)
    {
      Write(Encode(Command.Watch(tube)));
      var resp := ReadResponseLine();
      r := CountReply(resp, "WATCHING", "");
    }

    method Ignore(tube: string) returns (r: Outcome<int32>)
      requires HasLineEnd(incoming)
      modifies this
      ensures outgoing == old(outgoing) + Encode(Command.Ignore(tube))
      ensures (r, State()) == (CountReply(ReadLine(old(State())).0, "WATCHING", " [TUBE=" + tube + "]"),
                               ReadLine(old(State())).1)
    {
      Write(Encode(Command.Ignore(tube)));
      var resp := ReadResponseLine();
      r := CountReply(resp, "WATCHING", " [TUBE=" + tube + "]");
    }

    method Kick(bound: int32) returns (r: Outcome<int32>)
      requires HasLineEnd(incoming)
      modifies this
      ensures outgoing == old(outgoing) + Encode(Command.Kick(bound))
      ensures (r, State()) == (CountReply(ReadLine(old(State())).0, "KICKED", " [BOUND=" + Decimal(bound) + "]"),
                               ReadLine(old(State())).1)
    {
      Write(Encode(Command.Kick(bound)));
      var resp := ReadResponseLine();
      r := CountReply(resp, "KICKED", " [BOUND=" + Decimal(bound) + "]");
    }

    method Touch(id: int64) returns (r: Outcome<()>)
      requires HasLineEnd(incoming)
      modifies this
      ensures outgoing == old(outgoing) + Encode(Command.Touch(id))
      ensures (r, State()) == (ExpectReply(ReadLine(old(State())).0, "TOUCHED", " [JOBID=" + Decimal(id) + "]"),
                               ReadLine(old(State())).1)
    {
      Write(Encode(Command.Touch(id)));
      var resp := ReadResponseLine();
      r := ExpectReply(resp, "TOUCHED", " [JOBID=" + Decimal(id) + "]");
    }

    /** pauseTube: the tube and the delay go out with no space between them. */
    method PauseTube(tube: string, delay: int32) returns (r: Outcome<()>)
      requires HasLineEnd(incoming)
      modifies this
      ensures outgoing == old(outgoing) + Encode(Command.PauseTube(tube, delay))
      ensures (r, State()) == (ExpectReply(ReadLine(old(State())).0, "PAUSED",
                                 " [TUBE=" + tube + ",DELAY=" + Decimal(delay) + "]"),
                               ReadLine(old(State())).1)
    {
      Write(Bytes("pause-tube " + tube + Decimal(delay) + CRLF));
      var resp := ReadResponseLine();
      r := ExpectReply(resp, "PAUSED", " [TUBE=" + tube + ",DELAY=" + Decimal(delay) + "]");
    }

    /** quit: sends the request and reads nothing back. */
    method Quit()
      modifies this
      ensures outgoing == old(outgoing) + Encode(Command.Quit)
      ensures State() == old(State())
    {
      Write(Encode(Command.Quit));
    }

    method Stats() returns (r: Outcome<map<string, string>>)
      requires HasLineEnd(incoming)
      modifies this
      ensures outgoing == old(outgoing) + Encode(Command.Stats)
      ensures var (body, after) := ReadYamlFrom(old(State()));
              State() == after && r == if body.Ok? then Ok(YamlMap(Lines(Text(body.value)))) else Fail(body.failure)
    {
      Write(Encode(Command.Stats));
      r := ReadStatsBody();
    }

    method StatsJob(id: int64) returns (r: Outcome<map<string, string>>)
      requires HasLineEnd(incoming)
      modifies this
      ensures outgoing == old(outgoing) + Encode(Command.StatsJob(id))
      ensures var (body, after) := ReadYamlFrom(old(State()));
              State() == after && r == if body.Ok? then Ok(YamlMap(Lines(Text(body.value)))) else Fail(body.failure)
    {
      Write(Encode(Command.StatsJob(id)));
      r := ReadStatsBody();
    }

    method StatsTube(tube: string) returns (r: Outcome<map<string, string>>)
      requires HasLineEnd(incoming)
      modifies this
      ensures outgoing == old(outgoing) + Encode(Command.StatsTube(tube))
      ensures var (body, after) := ReadYamlFrom(old(State()));
              State() == after && r == if body.Ok? then Ok(YamlMap(Lines(Text(body.value)))) else Fail(body.failure)
    {
      Write(Encode(Command.StatsTube(tube)));
      r := ReadStatsBody();
    }

    method ListTubes() returns (r: Outcome<seq<string>>)
      requires HasLineEnd(incoming)
      modifies this
      ensures outgoing == old(outgoing) + Encode(Command.ListTubes)
      ensures var (body, after) := ReadYamlFrom(old(State()));
              State() == after && r == if body.Ok? then Ok(YamlList(Lines(Text(body.value)))) else Fail(body.failure)
    {
      Write(Encode(Command.ListTubes));
      r := ReadListBody();
    }

    /** listTubeUsed: element 0 of the parsed list; an empty list is an IndexOutOfBoundsException. */
    method ListTubeUsed() returns (r: Outcome<string>)
      requires HasLineEnd(incoming)
      modifies this
      ensures outgoing == old(outgoing) + Encode(Command.ListTubeUsed)
      ensures var (body, after) := ReadYamlFrom(old(State()));
              State() == after && r == if body.Ok? then FirstName(YamlList(Lines(Text(body.value)))) else Fail(body.failure)
    {
      Write(Encode(Command.ListTubeUsed));
      var list := ReadListBody();
      match list
      case Ok(names) => r := FirstName(names);
      case Fail(f) => r := Fail(f);
    }

    method ListTubesWatched() returns (r: Outcome<seq<string>>)
      requires HasLineEnd(incoming)
      modifies this
      ensures outgoing == old(outgoing) + Encode(Command.ListTubesWatched)
      ensures var (body, after) := ReadYamlFrom(old(State()));
              State() == after && r == if body.Ok? then Ok(YamlList(Lines(Text(body.value)))) else Fail(body.failure)
    {
      Write(Encode(Command.ListTubesWatched));
      r := ReadListBody();
    }

    /** parseYamlMap(new String(readYaml())) */
    method ReadStatsBody() returns (r: Outcome<map<string, string>>)
      requires HasLineEnd(incoming)
      modifies this
      ensures var (body, after) := ReadYamlFrom(old(State()));
              State() == after && r == if body.Ok? then Ok(YamlMap(Lines(Text(body.value)))) else Fail(body.failure)
      ensures outgoing == old(outgoing)
    {
      var body := ReadYaml();
      match body
      case Ok(bytes) =>
        var m := ParseYamlMap(Text(bytes));
        r := Ok(m);
      case Fail(f) =>
        r := Fail(f);
    }

    /** parseYamlList(new String(readYaml())) */
    method ReadListBody() returns (r: Outcome<seq<string>>)
      requires HasLineEnd(incoming)
      modifies this
      ensures var (body, after) := ReadYamlFrom(old(State()));
              State() == after && r == if body.Ok? then Ok(YamlList(Lines(Text(body.value)))) else Fail(body.failure)
      ensures outgoing == old(outgoing)
    {
      var body := ReadYaml();
      match body
      case Ok(bytes) =>
        var list := ParseYamlList(Text(bytes));
        r := Ok(list);
      case Fail(f) =>
        r := Fail(f);
    }

    // ------------------------------------------------------------ overloads with defaults

    /** put(data): priority 1024, no delay, 120 seconds to run. */
    method PutWithDefaults(data: seq<byte>) returns (r: Outcome<int64>)
      requires HasLineEnd(incoming)
      modifies this
      ensures outgoing == old(outgoing) + Encode(Command.Put(data, 1024, 0, 120))
      ensures (r, State()) == (PutReply(ReadLine(old(State())).0), ReadLine(old(State())).1)
    {
      r := Put(data, DEFAULT_PRIORITY, DEFAULT_DELAY, DEFAULT_TTR);
    }

    /** put(data, priority): no delay, 120 seconds to run. */
    method PutWithPriority(data: seq<byte>, priority: int64) returns (r: Outcome<int64>)
      requires HasLineEnd(incoming)
      modifies this
      ensures outgoing == old(outgoing) + Encode(Command.Put(data, priority, 0, 120))
      ensures (r, State()) == (PutReply(ReadLine(old(State())).0), ReadLine(old(State())).1)
    {
      r := Put(data, priority, DEFAULT_DELAY, DEFAULT_TTR);
    }

    /** put(data, priority, delay): 120 seconds to run. */
    method PutWithDelay(data: seq<byte>, priority: int64, delay: int32) returns (r: Outcome<int64>)
      requires HasLineEnd(incoming)
      modifies this
      ensures outgoing == old(outgoing) + Encode(Command.Put(data, priority, delay, 120))
      ensures (r, State()) == (PutReply(ReadLine(old(State())).0), ReadLine(old(State())).1)
    {
      r := Put(data, priority, delay, DEFAULT_TTR);
    }

    /** reserve(): reserve(0), which sends a plain reserve and waits. */
    method ReserveWaiting() returns (r: Outcome<Job>)
      requires HasLineEnd(incoming)
      modifies this
      ensures outgoing == old(outgoing) + Bytes("reserve\r\n")
      ensures (r, State()) == ReadJobFrom(old(State()))
    {
      r := Reserve(0);
    }

    /** delete(job): delete(job.getId()). */
    method DeleteJob(job: Job) returns (r: Outcome<()>)
      requires HasLineEnd(incoming)
      modifies this
      ensures outgoing == old(outgoing) + Encode(Command.Delete(job.id))
      ensures (r, State()) == (ExpectReply(ReadLine(old(State())).0, "DELETED", ", JOBID=[" + Decimal(job.id) + "]"),
                               ReadLine(old(State())).1)
    {
      r := Delete(job.GetId());
    }

    /** release(id, priority): no delay. */
    method ReleaseWithPriority(id: int64, priority: int64) returns (r: Outcome<()>)
      requires HasLineEnd(incoming)
      modifies this
      ensures outgoing == old(outgoing) + Encode(Command.Release(id, priority, 0))
      ensures (r, State()) == (ExpectReply(ReadLine(old(State())).0, "RELEASED", ", [JOBID=" + Decimal(id) + ", PRIORITY=" + Decimal(priority) + ", DELAY=" + Decimal(0) + "]"), ReadLine(old(State())).1)
    {
      r := Release(id, priority, DEFAULT_DELAY);
    }

    /** release(id): priority 1024, no delay. */
    method ReleaseWithDefaults(id: int64) returns (r: Outcome<()>)
      requires HasLineEnd(incoming)
      modifies this
      ensures outgoing == old(outgoing) + Encode(Command.Release(id, 1024, 0))
      ensures (r, State()) == (ExpectReply(ReadLine(old(State())).0, "RELEASED", ", [JOBID=" + Decimal(id) + ", PRIORITY=" + Decimal(1024) + ", DELAY=" + Decimal(0) + "]"), ReadLine(old(State())).1)
    {
      r := Release(id, DEFAULT_PRIORITY, DEFAULT_DELAY);
    }

    /** release(job, priority, delay): release(job.getId(), priority, delay). */
    method ReleaseJob(job: Job, priority: int64, delay: int32) returns (r: Outcome<()>)
      requires HasLineEnd(incoming)
      modifies this
      ensures outgoing == old(outgoing) + Encode(Command.Release(job.id, priority, delay))
      ensures (r, State()) == (ExpectReply(ReadLine(old(State())).0, "RELEASED", ", [JOBID=" + Decimal(job.id) + ", PRIORITY=" + Decimal(priority) + ", DELAY=" + Decimal(delay) + "]"), ReadLine(old(State())).1)
    {
      r := Release(job.GetId(), priority, delay);
    }

    /** release(job, priority): no delay. */
    method ReleaseJobWithPriority(job: Job, priority: int64) returns (r: Outcome<()>)
      requires HasLineEnd(incoming)
      modifies this
      ensures outgoing == old(outgoing) + Encode(Command.Release(job.id, priority, 0))
      ensures (r, State()) == (ExpectReply(ReadLine(old(State())).0, "RELEASED", ", [JOBID=" + Decimal(job.id) + ", PRIORITY=" + Decimal(priority) + ", DELAY=" + Decimal(0) + "]"), ReadLine(old(State())).1)
    {
      r := Release(job.GetId(), priority, DEFAULT_DELAY);
    }

    /** release(job): priority 1024, no delay. */
    method ReleaseJobWithDefaults(job: Job) returns (r: Outcome<()>)
      requires HasLineEnd(incoming)
      modifies this
      ensures outgoing == old(outgoing) + Encode(Command.Release(job.id, 1024, 0))
      ensures (r, State()) == (ExpectReply(ReadLine(old(State())).0, "RELEASED", ", [JOBID=" + Decimal(job.id) + ", PRIORITY=" + Decimal(1024) + ", DELAY=" + Decimal(0) + "]"), ReadLine(old(State())).1)
    {
      r := Release(job.GetId(), DEFAULT_PRIORITY, DEFAULT_DELAY);
    }

    /** bury(id): priority 1024. */
    method BuryWithDefaults(id: int64) returns (r: Outcome<()>)
      requires HasLineEnd(incoming)
      modifies this
      ensures outgoing == old(outgoing) + Encode(Command.Bury(id, 1024))
      ensures (r, State()) == (ExpectReply(ReadLine(old(State())).0, "BURIED", ", JOBID=[" + Decimal(id) + ", PRIORITY=" + Decimal(1024) + "]"), ReadLine(old(State())).1)
    {
      r := Bury(id, DEFAULT_PRIORITY);
    }

    /** close(): quit(). */
    method Close()
      modifies this
      ensures outgoing == old(outgoing) + Encode(Command.Quit)
      ensures State() == old(State())
    {
      Quit();
    }
  }
}
