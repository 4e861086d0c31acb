/**
 * The beanstalkd text protocol as the client speaks it: the request bytes of
 * each command, the per-command checks of the status line, and the two
 * readers of responses that carry a body (readJob and readYaml).
 */
module Protocol {
  import opened Outcomes
  import opened JavaNumbers
  import opened JavaStrings
  import opened Framing
  import opened Jobs

  /** The values the overloads without a priority, delay or time-to-run pass on. */
  const DEFAULT_PRIORITY: int64 := 1024
  const DEFAULT_DELAY: int32 := 0
  const DEFAULT_TTR: int32 := 120

  /** One request per command method of the client, with that method's arguments. */
  datatype Command =
    | Put(data: seq<byte>, priority: int64, delay: int32, ttr: int32)
    | Use(tube: string)
    | Reserve(timeout: int32)
    | Peek(id: int64)
    | PeekReady
    | PeekDelayed
    | PeekBuried
    | Delete(id: int64)
    | Release(id: int64, priority: int64, delay: int32)
    | Bury(id: int64, priority: int64)
    | Watch(tube: string)
    | Ignore(tube: string)
    | Kick(bound: int32)
    | Touch(id: int64)
    | PauseTube(tube: string, delay: int32)
    | Quit
    | Stats
    | StatsJob(id: int64)
    | StatsTube(tube: string)
    | ListTubes
    | ListTubeUsed
    | ListTubesWatched

  /** The text of the request line a command method formats, without its CR LF. */
  function RequestText(c: Command): (r: string)
  {
    match c
    case Put(data, priority, delay, ttr) =>
      "put " + Decimal(priority) + " " + Decimal(delay) + " " + Decimal(ttr) + " " + Decimal(|data|)
    case Use(tube) => "use " + tube
    case Reserve(timeout) => if timeout > 0 then "reserve-with-timeout " + Decimal(timeout) else "reserve"
    case Peek(id) => "peek " + Decimal(id)
    case PeekReady => "peek-ready"
    case PeekDelayed => "peek-delayed"
    case PeekBuried => "peek-buried"
    case Delete(id) => "delete " + Decimal(id)
    case Release(id, priority, delay) => "release " + Decimal(id) + " " + Decimal(priority) + " " + Decimal(delay)
    case Bury(id, priority) => "bury " + Decimal(id) + " " + Decimal(priority)
    case Watch(tube) => "watch " + tube
    case Ignore(tube) => "ignore " + tube
    case Kick(bound) => "kick " + Decimal(bound)
    case Touch(id) => "touch " + Decimal(id)
    case PauseTube(tube, delay) => "pause-tube " + tube + Decimal(delay)
    case Quit => "quit"
    case Stats => "stats"
    case StatsJob(id) => "stats-job " + Decimal(id)
    case StatsTube(tube) => "stats-tube " + tube
    case ListTubes => "list-tubes"
    case ListTubeUsed => "list-tube-used"
    case ListTubesWatched => "list-tubes-watched"
  }

  /** What a request carries after its first line: the payload and CR LF for put, nothing otherwise. */
  function Payload(c: Command): (r: seq<byte>)
  {
    if c.Put? then c.data + Bytes(CRLF) else []
  }

  /** The bytes a command method writes to the output stream: the request line, CR LF, then the payload. */
  function Encode(c: Command): (r: seq<byte>)
    ensures |r| >= 2 && r[|r| - 2..] == [CR, LF]
    ensures c.Put? ==> |r| >= |c.data| + 2 && r[|r| - 2 - |c.data|..|r| - 2] == c.data
  {
    var text := RequestText(c);
    if c.Put? then
      FramedPayload(text, c.data);
      Bytes(text + CRLF) + (c.data + Bytes(CRLF))
    else
      FramedLine(text);
      Bytes(text + CRLF) + []
  }

  /** A request line ends in CR LF. */
  lemma FramedLine(text: string)
    ensures var r := Bytes(text + CRLF) + []; |r| >= 2 && r[|r| - 2..] == [CR, LF]
  {
    BytesAppend(text, CRLF);
    assert Bytes(CRLF) == [CR, LF];
  }

  /** A request line followed by a payload and CR LF ends in the payload and CR LF. */
  lemma FramedPayload(text: string, data: seq<byte>)
    ensures var r := Bytes(text + CRLF) + (data + Bytes(CRLF));
      |r| >= |data| + 2 && r[|r| - 2..] == [CR, LF] && r[|r| - 2 - |data|..|r| - 2] == data
  {
    assert Bytes(CRLF) == [CR, LF];
  }

  /** The command's word: the first word of its request line. */
  function Verb(c: Command): (r: string)
  {
    match c
    case Put(_, _, _, _) => "put"
    case Use(_) => "use"
    case Reserve(timeout) => if timeout > 0 then "reserve-with-timeout" else "reserve"
    case Peek(_) => "peek"
    case PeekReady => "peek-ready"
    case PeekDelayed => "peek-delayed"
    case PeekBuried => "peek-buried"
    case Delete(_) => "delete"
    case Release(_, _, _) => "release"
    case Bury(_, _) => "bury"
    case Watch(_) => "watch"
    case Ignore(_) => "ignore"
    case Kick(_) => "kick"
    case Touch(_) => "touch"
    case PauseTube(_, _) => "pause-tube"
    case Quit => "quit"
    case Stats => "stats"
    case StatsJob(_) => "stats-job"
    case StatsTube(_) => "stats-tube"
    case ListTubes => "list-tubes"
    case ListTubeUsed => "list-tube-used"
    case ListTubesWatched => "list-tubes-watched"
  }

  /** The command's arguments, in the order its request line carries them. */
  function Arguments(c: Command): (r: seq<string>)
  {
    match c
    case Put(data, priority, delay, ttr) => [Decimal(priority), Decimal(delay), Decimal(ttr), Decimal(|data|)]
    case Use(tube) => [tube]
    case Reserve(timeout) => if timeout > 0 then [Decimal(timeout)] else []
    case Peek(id) => [Decimal(id)]
    case Delete(id) => [Decimal(id)]
    case Release(id, priority, delay) => [Decimal(id), Decimal(priority), Decimal(delay)]
    case Bury(id, priority) => [Decimal(id), Decimal(priority)]
    case Watch(tube) => [tube]
    case Ignore(tube) => [tube]
    case Kick(bound) => [Decimal(bound)]
    case Touch(id) => [Decimal(id)]
    case PauseTube(tube, delay) => [tube, Decimal(delay)]
    case StatsJob(id) => [Decimal(id)]
    case StatsTube(tube) => [tube]
    case _ => []
  }

  /** The words of the request line as the protocol's command grammar lists them. */
  function Grammar(c: Command): (r: seq<string>)
  {
    [Verb(c)] + Arguments(c)
  }

  /** A word without spaces, line breaks or characters wider than a byte. */
  predicate Plain(w: string)
  {
    forall i :: 0 <= i < |w| ==> PlainChar(w[i])
  }

  /** A tube name that fits in one word of a line. */
  predicate ValidTube(t: string)
  {
    t != "" && Plain(t)
  }

  predicate HasTube(c: Command)
  {
    c.Use? || c.Watch? || c.Ignore? || c.PauseTube? || c.StatsTube?
  }

  lemma DecimalWord(n: int)
    ensures Decimal(n) != "" && Plain(Decimal(n))
  {
    DecimalChars(n);
  }

  /** The producer commands' names are plain words. */
  lemma PlainProducerVerbs()
    ensures Plain("put") && Plain("use")
  {
  }

  /** The worker commands' names are plain words. */
  lemma PlainWorkerVerbs()
    ensures Plain("reserve") && Plain("reserve-with-timeout") && Plain("delete") && Plain("release")
    ensures Plain("bury") && Plain("touch") && Plain("watch") && Plain("ignore")
  {
  }

  /** The names of the commands that look at or kick jobs are plain words. */
  lemma PlainPeekVerbs()
    ensures Plain("peek") && Plain("peek-ready") && Plain("peek-delayed") && Plain("peek-buried") && Plain("kick")
  {
  }

  /** The names of the statistics and listing commands are plain words. */
  lemma PlainStatsVerbs()
    ensures Plain("stats") && Plain("stats-job") && Plain("stats-tube")
    ensures Plain("list-tubes") && Plain("list-tube-used") && Plain("list-tubes-watched")
  {
  }

  /** The names of pause-tube and quit are plain words. */
  lemma PlainControlVerbs()
    ensures Plain("pause-tube") && Plain("quit")
  {
  }

  /** Every command's name is one nonempty plain word. */
  lemma VerbWord(c: Command)
    ensures Verb(c) != "" && Plain(Verb(c))
  {
    PlainProducerVerbs();
    PlainWorkerVerbs();
    PlainPeekVerbs();
    PlainStatsVerbs();
    PlainControlVerbs();
  }

  lemma ArgumentWords(c: Command)
    requires HasTube(c) ==> ValidTube(c.tube)
    ensures forall k :: 0 <= k < |Arguments(c)| ==> Arguments(c)[k] != "" && Plain(Arguments(c)[k])
  {
    match c
    case Put(data, priority, delay, ttr) =>
      DecimalWord(priority); DecimalWord(delay); DecimalWord(ttr); DecimalWord(|data|);
    case Reserve(timeout) => DecimalWord(timeout);
    case Peek(id) => DecimalWord(id);
    case Delete(id) => DecimalWord(id);
    case Release(id, priority, delay) => DecimalWord(id); DecimalWord(priority); DecimalWord(delay);
    case Bury(id, priority) => DecimalWord(id); DecimalWord(priority);
    case Kick(bound) => DecimalWord(bound);
    case Touch(id) => DecimalWord(id);
    case PauseTube(tube, delay) => DecimalWord(delay);
    case StatsJob(id) => DecimalWord(id);
    case _ =>
  }

  /** The words of every request line are well formed when its tube name is. */
  lemma GrammarWords(c: Command)
    requires HasTube(c) ==> ValidTube(c.tube)
    ensures WellFormedWords(Grammar(c))
  {
    VerbWord(c);
    ArgumentWords(c);
    var ws := Grammar(c);
    forall k, i | 0 <= k < |ws| && 0 <= i < |ws[k]| ensures PlainChar(ws[k][i]) {
      if k > 0 { assert ws[k] == Arguments(c)[k - 1]; }
    }
  }

  lemma JoinOfTwo(a: string, b: string)
    ensures Join([a, b], " ") == a + " " + b
  {
    assert [a, b][1..] == [b];
  }

  lemma JoinOfThree(a: string, b: string, c: string)
    ensures Join([a, b, c], " ") == a + " " + b + " " + c
  {
    assert [a, b, c][1..] == [b, c];
    JoinOfTwo(b, c);
  }

  lemma JoinOfFour(a: string, b: string, c: string, d: string)
    ensures Join([a, b, c, d], " ") == a + " " + b + " " + c + " " + d
  {
    assert [a, b, c, d][1..] == [b, c, d];
    JoinOfThree(b, c, d);
  }

  lemma JoinOfFive(a: string, b: string, c: string, d: string, e: string)
    ensures Join([a, b, c, d, e], " ") == a + " " + b + " " + c + " " + d + " " + e
  {
    assert [a, b, c, d, e][1..] == [b, c, d, e];
    JoinOfFour(b, c, d, e);
  }

  lemma TextOfPut(data: seq<byte>, priority: int64, delay: int32, ttr: int32)
    ensures RequestText(Put(data, priority, delay, ttr)) == Join(Grammar(Put(data, priority, delay, ttr)), " ")
  {
    assert "put " == "put" + " ";
    assert Grammar(Put(data, priority, delay, ttr)) == ["put", Decimal(priority), Decimal(delay), Decimal(ttr), Decimal(|data|)];
    JoinOfFive("put", Decimal(priority), Decimal(delay), Decimal(ttr), Decimal(|data|));
  }

  lemma TextOfRelease(id: int64, priority: int64, delay: int32)
    ensures RequestText(Release(id, priority, delay)) == Join(Grammar(Release(id, priority, delay)), " ")
  {
    assert "release " == "release" + " ";
    assert Grammar(Release(id, priority, delay)) == ["release", Decimal(id), Decimal(priority), Decimal(delay)];
    JoinOfFour("release", Decimal(id), Decimal(priority), Decimal(delay));
  }

  lemma TextOfBury(id: int64, priority: int64)
    ensures RequestText(Bury(id, priority)) == Join(Grammar(Bury(id, priority)), " ")
  {
    assert "bury " == "bury" + " ";
    assert Grammar(Bury(id, priority)) == ["bury", Decimal(id), Decimal(priority)];
    JoinOfThree("bury", Decimal(id), Decimal(priority));
  }

  /** A request line of a verb and one argument. */
  lemma TextOfOneArgument(c: Command, verb: string, arg: string)
    requires RequestText(c) == verb + " " + arg && Grammar(c) == [verb, arg]
    ensures RequestText(c) == Join(Grammar(c), " ")
  {
    JoinOfTwo(verb, arg);
  }

  lemma TextOfIdCommands(c: Command)
    requires c.Peek? || c.Delete? || c.Touch? || c.StatsJob?
    ensures RequestText(c) == Join(Grammar(c), " ")
  {
    var d := Decimal(c.id);
    match c
    case Peek(_) =>
      assert "peek " == "peek" + " ";
      TextOfOneArgument(c, "peek", d);
    case Delete(_) =>
      assert "delete " == "delete" + " ";
      TextOfOneArgument(c, "delete", d);
    case Touch(_) =>
      assert "touch " == "touch" + " ";
      TextOfOneArgument(c, "touch", d);
    case StatsJob(_) =>
      assert "stats-job " == "stats-job" + " ";
      TextOfOneArgument(c, "stats-job", d);
  }

  lemma TextOfTubeCommands(c: Command)
    requires c.Use? || c.Watch? || c.Ignore? || c.StatsTube?
    ensures RequestText(c) == Join(Grammar(c), " ")
  {
    var t := c.tube;
    match c
    case Use(_) =>
      assert "use " == "use" + " ";
      TextOfOneArgument(c, "use", t);
    case Watch(_) =>
      assert "watch " == "watch" + " ";
      TextOfOneArgument(c, "watch", t);
    case Ignore(_) =>
      assert "ignore " == "ignore" + " ";
      TextOfOneArgument(c, "ignore", t);
    case StatsTube(_) =>
      assert "stats-tube " == "stats-tube" + " ";
      TextOfOneArgument(c, "stats-tube", t);
  }

  lemma TextOfCountCommands(c: Command)
    requires c.Kick? || c.Reserve?
    ensures RequestText(c) == Join(Grammar(c), " ")
  {
    if c.Kick? {
      assert "kick " == "kick" + " ";
      TextOfOneArgument(c, "kick", Decimal(c.bound));
    } else if c.timeout > 0 {
      assert "reserve-with-timeout " == "reserve-with-timeout" + " ";
      TextOfOneArgument(c, "reserve-with-timeout", Decimal(c.timeout));
    } else {
      assert Grammar(c) == ["reserve"];
    }
  }

  lemma TextOfBareCommands(c: Command)
    requires c.PeekReady? || c.PeekDelayed? || c.PeekBuried? || c.Quit? || c.Stats?
          || c.ListTubes? || c.ListTubeUsed? || c.ListTubesWatched?
    ensures RequestText(c) == Join(Grammar(c), " ")
  {
    assert Grammar(c) == [Verb(c)];
  }

  /** Every request line but pause-tube's is its grammar's words joined by single spaces. */
  lemma TextAsWords(c: Command)
    requires !c.PauseTube?
    ensures RequestText(c) == Join(Grammar(c), " ")
  {
    match c
    case Put(data, priority, delay, ttr) => TextOfPut(data, priority, delay, ttr);
    case Release(id, priority, delay) => TextOfRelease(id, priority, delay);
    case Bury(id, priority) => TextOfBury(id, priority);
    case Peek(_) => TextOfIdCommands(c);
    case Delete(_) => TextOfIdCommands(c);
    case Touch(_) => TextOfIdCommands(c);
    case StatsJob(_) => TextOfIdCommands(c);
    case Use(_) => TextOfTubeCommands(c);
    case Watch(_) => TextOfTubeCommands(c);
    case Ignore(_) => TextOfTubeCommands(c);
    case StatsTube(_) => TextOfTubeCommands(c);
    case Kick(_) => TextOfCountCommands(c);
    case Reserve(_) => TextOfCountCommands(c);
    case _ => TextOfBareCommands(c);
  }

  lemma EncodeAsLine(c: Command)
    requires !c.PauseTube?
    ensures Encode(c) == StatusLine(Grammar(c)) + Payload(c)
  {
    TextAsWords(c);
  }

  /**
   * Read with the client's own line reader, every request but pause-tube's
   * gives exactly the words of the protocol's grammar, and what follows the
   * line is the payload for put and nothing otherwise.
   */
  lemma RequestRoundTrip(c: Command, rest: seq<byte>, bursts: seq<Burst>)
    requires HasTube(c) ==> ValidTube(c.tube)
    requires !c.PauseTube?
    ensures HasLineEnd(Encode(c) + rest)
    ensures ReadLine(Stream(Encode(c) + rest, bursts)) == (Ok(Grammar(c)), Stream(Payload(c) + rest, bursts))
  {
    var ws := Grammar(c);
    var p := Payload(c);
    EncodeAsLine(c);
    Regroup(StatusLine(ws), p, rest);
    GrammarWords(c);
    LineRoundTrip(ws, p + rest, bursts);
  }

  /**
   * put frames its payload: the request line declares the payload's length,
   * and reading that many bytes after the line gives the payload back and
   * ends exactly at the end of the request.
   */
  lemma PutFraming(data: seq<byte>, priority: int64, delay: int32, ttr: int32, rest: seq<byte>)
    requires |data| < 0x8000_0000
    ensures HasLineEnd(Encode(Put(data, priority, delay, ttr)) + rest)
    ensures ReadLine(Stream(Encode(Put(data, priority, delay, ttr)) + rest, [])).0
         == Ok(Grammar(Put(data, priority, delay, ttr)))
    ensures ParseInt(Grammar(Put(data, priority, delay, ttr))[4]) == Some(|data|)
    ensures ReadBody(ReadLine(Stream(Encode(Put(data, priority, delay, ttr)) + rest, [])).1, |data|)
         == (Ok(data), Stream(rest, []))
  {
    var c := Put(data, priority, delay, ttr);
    RequestRoundTrip(c, rest, []);
    IntRoundTrip(|data|);
    var after := ReadLine(Stream(Encode(c) + rest, [])).1;
    assert after == Stream(data + Bytes(CRLF) + rest, []) by {
      assert Payload(c) + rest == data + Bytes(CRLF) + rest;
    }
    BodyRoundTrip(data, Bytes(CRLF), rest, []);
  }

  /**
   * pause-tube writes no space between the tube and the delay, so its line
   * reads as two words, the tube name run together with the delay, and not
   * as the three words of the grammar.
   */
  lemma PauseTubeRunsTogether(tube: string, delay: int32, rest: seq<byte>, bursts: seq<Burst>)
    requires ValidTube(tube)
    ensures HasLineEnd(Encode(PauseTube(tube, delay)) + rest)
    ensures ReadLine(Stream(Encode(PauseTube(tube, delay)) + rest, bursts))
         == (Ok(["pause-tube", tube + Decimal(delay)]), Stream(rest, bursts))
    ensures ReadLine(Stream(Encode(PauseTube(tube, delay)) + rest, bursts)).0 != Ok(Grammar(PauseTube(tube, delay)))
  {
    var word := tube + Decimal(delay);
    var ws := ["pause-tube", word];
    DecimalWord(delay);
    PlainControlVerbs();
    PlainJoined(tube, Decimal(delay));
    PauseTubeLine(tube, delay);
    LineRoundTrip(ws, rest, bursts);
    assert |Grammar(PauseTube(tube, delay))| == 3;
  }

  lemma PlainJoined(a: string, b: string)
    requires Plain(a) && Plain(b)
    ensures Plain(a + b)
  {
    forall i | 0 <= i < |a + b| ensures PlainChar((a + b)[i]) {
      if i < |a| { assert (a + b)[i] == a[i]; } else { assert (a + b)[i] == b[i - |a|]; }
    }
  }

  /** The pause-tube request is the status line of two words, the second the tube and delay run together. */
  lemma PauseTubeLine(tube: string, delay: int32)
    ensures Encode(PauseTube(tube, delay)) == StatusLine(["pause-tube", tube + Decimal(delay)])
  {
    var d := Decimal(delay);
    var text := RequestText(PauseTube(tube, delay));
    JoinOfTwo("pause-tube", tube + d);
    assert "pause-tube" + " " == "pause-tube ";
    Regroup("pause-tube ", tube, d);
    assert text == Join(["pause-tube", tube + d], " ");
    assert Bytes(text + CRLF) + [] == Bytes(text + CRLF);
  }

  /** reserve(t) asks for reserve-with-timeout exactly when t is positive, and for a plain reserve otherwise. */
  lemma ReserveRequest(timeout: int32, rest: seq<byte>)
    ensures HasLineEnd(Encode(Reserve(timeout)) + rest)
    ensures ReadLine(Stream(Encode(Reserve(timeout)) + rest, [])).0
         == if timeout > 0 then Ok(["reserve-with-timeout", Decimal(timeout)]) else Ok(["reserve"])
  {
    RequestRoundTrip(Reserve(timeout), rest, []);
    if timeout > 0 {
      assert Grammar(Reserve(timeout)) == ["reserve-with-timeout", Decimal(timeout)];
    } else {
      assert Grammar(Reserve(timeout)) == ["reserve"];
    }
  }

  // ---------------------------------------------------------------- status checks

  /**
   * put's check: the job id on INSERTED with exactly two tokens; a two-token
   * BURIED raises "BURIED <id>" with the id read back as a long; any other
   * status raises token 0.
   */
  function PutReply(line: Outcome<seq<string>>): (r: Outcome<int64>)
    ensures r.Ok? ==> line.Ok? && |line.value| == 2 && line.value[0] == "INSERTED"
                      && ParseLong(line.value[1]) == Some(r.value)
    ensures line.Ok? && |line.value| == 2 && line.value[0] == "INSERTED" && ParseLong(line.value[1]).Some?
            ==> r == Ok(ParseLong(line.value[1]).value)
    ensures line.Ok? && |line.value| == 2 && (line.value[0] == "INSERTED" || line.value[0] == "BURIED")
            && ParseLong(line.value[1]).None?
            ==> r == Fail(Runtime)
    ensures line.Ok? && |line.value| == 2 && line.value[0] == "BURIED" && ParseLong(line.value[1]).Some?
            ==> r == Fail(Server("BURIED " + Decimal(ParseLong(line.value[1]).value)))
    ensures line.Ok? && |line.value| > 0 && !(|line.value| == 2 && (line.value[0] == "INSERTED" || line.value[0] == "BURIED"))
            ==> r == Fail(Server(line.value[0]))
    ensures line.Ok? && |line.value| == 0 ==> r == Fail(Runtime)
    ensures line.Fail? ==> r == Fail(line.failure)
  {
    match line
    case Fail(f) => Fail(f)
    case Ok(resp) =>
      if |resp| == 0 then Fail(Runtime)
      else if resp[0] == "INSERTED" && |resp| == 2 then
        match ParseLong(resp[1])
        case Some(id) => Ok(id)
        case None => Fail(Runtime)
      else if resp[0] == "BURIED" && |resp| == 2 then
        match ParseLong(resp[1])
        case Some(id) => Fail(Server("BURIED " + Decimal(id)))
        case None => Fail(Runtime)
      else Fail(Server(resp[0]))
  }

  /**
   * The check of use, delete, release, bury, touch and pause-tube: the
   * command succeeds exactly when token 0 is its word; otherwise it raises
   * token 0 followed by the command's detail text.
   */
  function ExpectReply(line: Outcome<seq<string>>, word: string, detail: string): (r: Outcome<()>)
    ensures r.Ok? <==> line.Ok? && |line.value| > 0 && line.value[0] == word
    ensures r.Fail? && line.Ok? && |line.value| > 0 ==> r.failure == Server(line.value[0] + detail)
    ensures line.Ok? && |line.value| == 0 ==> r == Fail(Runtime)
    ensures line.Fail? ==> r == Fail(line.failure)
  {
    match line
    case Fail(f) => Fail(f)
    case Ok(resp) =>
      if |resp| == 0 then Fail(Runtime)
      else if resp[0] == word then Ok(())
      else Fail(Server(resp[0] + detail))
  }

  /**
   * The check of watch, ignore and kick: on the word, token 1 read as an int
   * (a missing or malformed token 1 is a runtime exception); otherwise token 0
   * followed by the command's detail text.
   */
  function CountReply(line: Outcome<seq<string>>, word: string, detail: string): (r: Outcome<int32>)
    ensures r.Ok? ==> line.Ok? && |line.value| > 1 && line.value[0] == word && ParseInt(line.value[1]) == Some(r.value)
    ensures r.Fail? && line.Ok? && |line.value| > 0 && line.value[0] != word ==> r.failure == Server(line.value[0] + detail)
    ensures line.Ok? && |line.value| > 1 && line.value[0] == word && ParseInt(line.value[1]).Some?
            ==> r == Ok(ParseInt(line.value[1]).value)
    ensures line.Ok? && |line.value| > 0 && line.value[0] == word && (|line.value| == 1 || ParseInt(line.value[1]).None?)
            ==> r == Fail(Runtime)
    ensures line.Ok? && |line.value| == 0 ==> r == Fail(Runtime)
    ensures line.Fail? ==> r == Fail(line.failure)
  {
    match line
    case Fail(f) => Fail(f)
    case Ok(resp) =>
      if |resp| == 0 then Fail(Runtime)
      else if resp[0] == word then
        if |resp| < 2 then Fail(Runtime)
        else
          match ParseInt(resp[1])
          case Some(n) => Ok(n)
          case None => Fail(Runtime)
      else Fail(Server(resp[0] + detail))
  }

  /**
   * readJob's gate: a body follows only a line of exactly three tokens whose
   * token 0 is RESERVED or FOUND; token 1 is the id and token 2, cut to an
   * int, the body length. Any other line raises token 0.
   */
  function JobGate(line: Outcome<seq<string>>): (r: Outcome<(int64, int32)>)
    ensures r.Ok? ==> line.Ok? && |line.value| == 3 && (line.value[0] == "RESERVED" || line.value[0] == "FOUND")
                      && ParseLong(line.value[1]) == Some(r.value.0)
                      && ParseLong(line.value[2]).Some? && r.value.1 == IntValue(ParseLong(line.value[2]).value)
    ensures line.Ok? && |line.value| > 0 && !(|line.value| == 3 && (line.value[0] == "RESERVED" || line.value[0] == "FOUND"))
            ==> r == Fail(Server(line.value[0]))
    ensures line.Ok? && |line.value| == 3 && (line.value[0] == "RESERVED" || line.value[0] == "FOUND")
            && ParseLong(line.value[1]).Some? && ParseLong(line.value[2]).Some?
            ==> r == Ok((ParseLong(line.value[1]).value, IntValue(ParseLong(line.value[2]).value)))
    ensures line.Ok? && |line.value| == 3 && (line.value[0] == "RESERVED" || line.value[0] == "FOUND")
            && (ParseLong(line.value[1]).None? || ParseLong(line.value[2]).None?)
            ==> r == Fail(Runtime)
    ensures line.Ok? && |line.value| == 0 ==> r == Fail(Runtime)
    ensures line.Fail? ==> r == Fail(line.failure)
  {
    match line
    case Fail(f) => Fail(f)
    case Ok(resp) =>
      if |resp| == 3 && (resp[0] == "RESERVED" || resp[0] == "FOUND") then
        match ParseLong(resp[1])
        case None => Fail(Runtime)
        case Some(id) =>
          match ParseLong(resp[2])
          case None => Fail(Runtime)
          case Some(n) => Ok((id, IntValue(n)))
      else if |resp| == 0 then Fail(Runtime)
      else Fail(Server(resp[0]))
  }

  /**
   * readYaml's gate: a body follows only a line of exactly two tokens whose
   * token 0 is OK; token 1, cut to an int, is the body length. Any other line
   * raises token 0.
   */
  function YamlGate(line: Outcome<seq<string>>): (r: Outcome<int32>)
    ensures r.Ok? ==> line.Ok? && |line.value| == 2 && line.value[0] == "OK"
                      && ParseLong(line.value[1]).Some? && r.value == IntValue(ParseLong(line.value[1]).value)
    ensures line.Ok? && |line.value| > 0 && !(|line.value| == 2 && line.value[0] == "OK")
            ==> r == Fail(Server(line.value[0]))
    ensures line.Ok? && |line.value| == 2 && line.value[0] == "OK" && ParseLong(line.value[1]).Some?
            ==> r == Ok(IntValue(ParseLong(line.value[1]).value))
    ensures line.Ok? && |line.value| == 2 && line.value[0] == "OK" && ParseLong(line.value[1]).None?
            ==> r == Fail(Runtime)
    ensures line.Ok? && |line.value| == 0 ==> r == Fail(Runtime)
    ensures line.Fail? ==> r == Fail(line.failure)
  {
    match line
    case Fail(f) => Fail(f)
    case Ok(resp) =>
      if |resp| == 2 && resp[0] == "OK" then
        match ParseLong(resp[1])
        case None => Fail(Runtime)
        case Some(n) => Ok(IntValue(n))
      else if |resp| == 0 then Fail(Runtime)
      else Fail(Server(resp[0]))
  }

  /** listTubeUsed's .get(0): the first name, or a runtime exception on an empty list. */
  function FirstName(list: seq<string>): (r: Outcome<string>)
    ensures r.Ok? <==> |list| > 0
    ensures r.Ok? ==> r.value == list[0]
    ensures |list| == 0 ==> r == Fail(Runtime)
  {
    if |list| == 0 then Fail(Runtime) else Ok(list[0])
  }

  // ---------------------------------------------------------------- responses with a body

  /** readJob: the status line, then, only past the gate, the body. */
  function ReadJobFrom(s: Stream): (r: (Outcome<Job>, Stream))
    requires HasLineEnd(s.incoming)
    ensures r.0.Ok? ==> JobGate(ReadLine(s).0).Ok? && r.0.value.id == JobGate(ReadLine(s).0).value.0
    ensures JobGate(ReadLine(s).0).Fail? ==> r == (Fail(JobGate(ReadLine(s).0).failure), ReadLine(s).1)
    ensures JobGate(ReadLine(s).0).Ok? ==>
      var (id, n) := JobGate(ReadLine(s).0).value;
      var (body, rest) := ReadBody(ReadLine(s).1, n);
      r == (if body.Ok? then Ok(Job(id, body.value)) else Fail(body.failure), rest)
  {
    var (line, after) := ReadLine(s);
    match JobGate(line)
    case Fail(f) => (Fail(f), after)
    case Ok((id, n)) =>
      var (body, rest) := ReadBody(after, n);
      match body
      case Ok(data) => (Ok(Job(id, data)), rest)
      case Fail(f) => (Fail(f), rest)
  }

  /** readYaml: the status line, then, only past the gate, the body. */
  function ReadYamlFrom(s: Stream): (r: (Outcome<seq<byte>>, Stream))
    requires HasLineEnd(s.incoming)
    ensures YamlGate(ReadLine(s).0).Fail? ==> r == (Fail(YamlGate(ReadLine(s).0).failure), ReadLine(s).1)
    ensures YamlGate(ReadLine(s).0).Ok? ==> r == ReadBody(ReadLine(s).1, YamlGate(ReadLine(s).0).value)
  {
    var (line, after) := ReadLine(s);
    match YamlGate(line)
    case Fail(f) => (Fail(f), after)
    case Ok(n) => ReadBody(after, n)
  }

  // ---------------------------------------------------------------- replies a server sends

  /**
   * A job reply "RESERVED <id> <bytes>" or "FOUND <id> <bytes>" followed by the
   * payload and two more bytes reads as that job when the payload comes in one
   * bulk read, and leaves the stream at what follows.
   */
  lemma JobReplyRoundTrip(word: string, id: int64, p: seq<byte>, trailer: seq<byte>, rest: seq<byte>, bursts: seq<Burst>)
    requires word == "RESERVED" || word == "FOUND"
    requires |p| < 0x8000_0000 && |trailer| == 2
    requires bursts == [] || bursts[0] >= |p|
    ensures HasLineEnd(StatusLine([word, Decimal(id), Decimal(|p|)]) + p + trailer + rest)
    ensures ReadJobFrom(Stream(StatusLine([word, Decimal(id), Decimal(|p|)]) + p + trailer + rest, bursts))
         == (Ok(Job(id, p)), Stream(rest, AfterBody(bursts, |p|)))
  {
    var ws := [word, Decimal(id), Decimal(|p|)];
    DecimalWord(id);
    DecimalWord(|p|);
    var s := Stream(StatusLine([word, Decimal(id), Decimal(|p|)]) + p + trailer + rest, bursts);
    assert s.incoming == StatusLine(ws) + (p + trailer + rest) by {
      Regroup(StatusLine(ws) + p, trailer, rest);
      Regroup(StatusLine(ws), p, trailer + rest);
    }
    LineRoundTrip(ws, p + trailer + rest, bursts);
    LongRoundTrip(id);
    LongRoundTrip(|p|);
    assert JobGate(ReadLine(s).0) == Ok((id, |p| as int32));
    BodyRoundTrip(p, trailer, rest, bursts);
  }

  /**
   * Any other well-formed status line makes readJob raise its first word and
   * read nothing past the line, so the next response starts where it should.
   */
  lemma JobErrorReply(ws: seq<string>, rest: seq<byte>, bursts: seq<Burst>)
    requires WellFormedWords(ws)
    requires !(|ws| == 3 && (ws[0] == "RESERVED" || ws[0] == "FOUND"))
    ensures HasLineEnd(StatusLine(ws) + rest)
    ensures ReadJobFrom(Stream(StatusLine(ws) + rest, bursts)) == (Fail(Server(ws[0])), Stream(rest, bursts))
  {
    LineRoundTrip(ws, rest, bursts);
  }

  /** A reply "OK <bytes>" followed by the body reads as that body when it comes in one bulk read. */
  lemma YamlReplyRoundTrip(body: seq<byte>, trailer: seq<byte>, rest: seq<byte>, bursts: seq<Burst>)
    requires |body| < 0x8000_0000 && |trailer| == 2
    requires bursts == [] || bursts[0] >= |body|
    ensures HasLineEnd(StatusLine(["OK", Decimal(|body|)]) + body + trailer + rest)
    ensures ReadYamlFrom(Stream(StatusLine(["OK", Decimal(|body|)]) + body + trailer + rest, bursts))
         == (Ok(body), Stream(rest, AfterBody(bursts, |body|)))
  {
    var ws := ["OK", Decimal(|body|)];
    DecimalWord(|body|);
    LineRoundTrip(ws, body + trailer + rest, bursts);
    Regroup(StatusLine(ws) + body, trailer, rest);
    Regroup(StatusLine(ws), body, trailer + rest);
    Regroup(body, trailer, rest);
    LongRoundTrip(|body|);
    BodyRoundTrip(body, trailer, rest, bursts);
  }

  /** Any other well-formed status line makes readYaml raise its first word and read nothing past the line. */
  lemma YamlErrorReply(ws: seq<string>, rest: seq<byte>, bursts: seq<Burst>)
    requires WellFormedWords(ws)
    requires !(|ws| == 2 && ws[0] == "OK")
    ensures HasLineEnd(StatusLine(ws) + rest)
    ensures ReadYamlFrom(Stream(StatusLine(ws) + rest, bursts)) == (Fail(Server(ws[0])), Stream(rest, bursts))
  {
    LineRoundTrip(ws, rest, bursts);
  }

  /** put reads "INSERTED <id>" as that id and turns "BURIED <id>" into the error "BURIED <id>". */
  lemma PutReplies(id: int64, rest: seq<byte>, bursts: seq<Burst>)
    ensures HasLineEnd(StatusLine(["INSERTED", Decimal(id)]) + rest)
    ensures PutReply(ReadLine(Stream(StatusLine(["INSERTED", Decimal(id)]) + rest, bursts)).0) == Ok(id)
    ensures HasLineEnd(StatusLine(["BURIED", Decimal(id)]) + rest)
    ensures PutReply(ReadLine(Stream(StatusLine(["BURIED", Decimal(id)]) + rest, bursts)).0)
         == Fail(Server("BURIED " + Decimal(id)))
  {
    DecimalWord(id);
    LineRoundTrip(["INSERTED", Decimal(id)], rest, bursts);
    LineRoundTrip(["BURIED", Decimal(id)], rest, bursts);
    LongRoundTrip(id);
  }

  /**
   * A status-only command succeeds on a well-formed reply exactly when its
   * first word is the command's word, raises that word with the command's
   * detail otherwise, and in both cases consumes exactly the reply line.
   */
  lemma StatusReply(ws: seq<string>, word: string, detail: string, rest: seq<byte>, bursts: seq<Burst>)
    requires WellFormedWords(ws)
    ensures HasLineEnd(StatusLine(ws) + rest)
    ensures ExpectReply(ReadLine(Stream(StatusLine(ws) + rest, bursts)).0, word, detail)
         == if ws[0] == word then Ok(()) else Fail(Server(ws[0] + detail))
    ensures ReadLine(Stream(StatusLine(ws) + rest, bursts)).1 == Stream(rest, bursts)
  {
    LineRoundTrip(ws, rest, bursts);
  }

  /** watch, ignore and kick read "<word> <n>" as n. */
  lemma CountReplyRoundTrip(word: string, n: int32, detail: string, rest: seq<byte>, bursts: seq<Burst>)
    requires word != "" && forall i :: 0 <= i < |word| ==> PlainChar(word[i])
    ensures HasLineEnd(StatusLine([word, Decimal(n)]) + rest)
    ensures CountReply(ReadLine(Stream(StatusLine([word, Decimal(n)]) + rest, bursts)).0, word, detail) == Ok(n)
  {
    DecimalWord(n);
    LineRoundTrip([word, Decimal(n)], rest, bursts);
    IntRoundTrip(n);
  }

  /**
   * The checks take any numeral Long.valueOf and Integer.valueOf accept, not
   * only the form the server writes: a plus sign and leading zeros are fine.
   */
  lemma LenientNumerals()
    ensures PutReply(Ok(["INSERTED", "+7"])) == Ok(7)
    ensures CountReply(Ok(["WATCHING", "007"]), "WATCHING", "") == Ok(7)
    ensures JobGate(Ok(["FOUND", "+7", "03"])) == Ok((7, 3))
  {
    assert "+7"[1..] == "7";
    assert ParseInteger("+7") == Some(7);
    assert "007"[..2] == "00" && "00"[..1] == "0" && "0"[..0] == "";
    assert DigitsValue("007") == 7;
    assert "03"[..1] == "0";
    assert DigitsValue("03") == 3;
  }
}
