/**
 * The data path of the GPU monitor widget: which command each configured server
 * is queried with, how the `nvidia-smi` CSV answer becomes a per-host summary,
 * one polling round over all servers, the per-host last-active bookkeeping and
 * idle alert, the settings dialog's auto-save, and the short GPU names shown on
 * the compact cards.
 */
module Gpu {
  import opened Base
  import opened Text

  /** The `proxy` entry of a server: the jump host the ssh command goes through. */
  datatype Proxy = Proxy(host: Option<string>, port: Option<nat>, user: Option<string>, keyFile: Option<string>)

  /**
   * One entry of the configured `servers` list. Optional keys are `None` when absent;
   * `proxy` is `None` when absent or empty (both are false in the source's test).
   */
  datatype Server = Server(
    host: string,
    port: Option<nat>,
    user: Option<string>,
    password: Option<string>,
    keyFile: Option<string>,
    proxy: Option<Proxy>)

  /** The port used when a server or proxy gives none. */
  const SshPort: nat := 22

  function PortOf(s: Server): nat
  {
    s.port.GetOr(SshPort)
  }

  /** The identifier a server's readings are filed under: `host:port`. */
  function ServerId(s: Server): string
  {
    s.host + ":" + NatToString(PortOf(s))
  }

  /** An identifier is the host, a colon, and the decimal port, 22 when none is given. */
  lemma ServerIdShape(s: Server)
    ensures StartsWith(ServerId(s), s.host + ":")
    ensures var id := ServerId(s); |id| > |s.host| + 1 && AllDigits(id[|s.host| + 1..])
    ensures DigitsValue(ServerId(s)[|s.host| + 1..]) == PortOf(s)
  {
    var id := ServerId(s);
    assert id[..|s.host| + 1] == s.host + ":";
    assert id[|s.host| + 1..] == NatToString(PortOf(s));
    DigitsRoundTrip(PortOf(s));
  }

  /** As long as host names contain no colon, two servers share an identifier only if they share host and port. */
  lemma ServerIdInjective(a: Server, b: Server)
    requires ':' !in a.host && ':' !in b.host
    requires ServerId(a) == ServerId(b)
    ensures a.host == b.host && PortOf(a) == PortOf(b)
  {
    var da := NatToString(PortOf(a));
    var db := NatToString(PortOf(b));
    forall k | 0 <= k < |da| ensures da[k] != ':' { assert IsDigit(da[k]); }
    forall k | 0 <= k < |db| ensures db[k] != ':' { assert IsDigit(db[k]); }
    SplitAfterPiece(a.host, ':', da);
    SplitAfterPiece(b.host, ':', db);
    SplitWithoutSeparator(da, ':');
    SplitWithoutSeparator(db, ':');
    assert a.host + ":" + da == a.host + [':'] + da;
    assert b.host + ":" + db == b.host + [':'] + db;
    assert [a.host, da] == Split(ServerId(a), ':') == [b.host, db];
    NatToStringInjective(PortOf(a), PortOf(b));
  }

  /** The query every route runs. */
  const Query := "nvidia-smi --query-gpu=name,memory.used,memory.total,utilization.gpu --format=csv,noheader,nounits"

  /** The credential a direct ssh connection is made with. */
  datatype Credential = KeyFile(path: string) | Password(password: string)

  /** How a server is queried. */
  datatype Route =
    | LocalCommand(argv: seq<string>)
    | ProxyCommand(argv: seq<string>)
    | DirectSsh(host: string, port: nat, user: string, credential: Credential)

  /** What the widget sees of the machine it runs on: the files that exist and where `~/.ssh/id_rsa` expands to. */
  datatype Env = Env(existingFiles: set<string>, defaultKey: string)

  /** Python truthiness of an optional string: present and non-empty. */
  predicate Truthy(o: Option<string>)
  {
    o.Some? && o.value != ""
  }

  predicate IsLoopback(host: string)
  {
    host == "localhost" || host == "127.0.0.1"
  }

  /** `nvidia-smi` with the query split into its own arguments, as the local branch runs it. */
  const LocalArgv: seq<string> :=
    ["nvidia-smi", "--query-gpu=name,memory.used,memory.total,utilization.gpu", "--format=csv,noheader,nounits"]

  /** The `ProxyCommand` ssh uses to reach the server through the jump host. */
  function ProxyJump(p: Proxy): (c: string)
    requires p.host.Some? && p.user.Some?
    ensures var base := "ssh -W %h:%p " + p.user.value + "@" + p.host.value + " -p " + NatToString(p.port.GetOr(SshPort));
      && StartsWith(c, base)
      && (Truthy(p.keyFile) ==> |c| == |base| + |" -i " + p.keyFile.value| && EndsWith(c, " -i " + p.keyFile.value))
      && (!Truthy(p.keyFile) ==> c == base)
  {
    var port := NatToString(p.port.GetOr(SshPort));
    var jump := "ssh -W %h:%p " + p.user.value + "@" + p.host.value;
    var base := jump + " -p " + port;
    var tail := if Truthy(p.keyFile) then " -i " + p.keyFile.value else "";
    var c := base + tail;
    assert c[..|base|] == base;
    assert c[|c| - |tail|..] == tail;
    assert base[|jump|..] == " -p " + port;
    c
  }

  /**
   * The route for a server, or the `KeyError` raised while building it. The tests run in
   * the source's order: loopback host, then a proxy, then ssh with the server's own key
   * file if it exists, the default key if that exists, and the password last.
   */
  function ChooseRoute(s: Server, env: Env): (r: Result<Route>)
    ensures IsLoopback(s.host) ==> r == Ok(LocalCommand(LocalArgv))
    ensures r.Ok? && r.value.ProxyCommand? <==> !IsLoopback(s.host) && s.proxy.Some? && r.Ok?
    ensures r.Ok? && r.value.DirectSsh? ==>
      && r.value.host == s.host && r.value.port == PortOf(s) && Some(r.value.user) == s.user
      && (r.value.credential == Password(s.password.GetOr("")) <==>
            !(Truthy(s.keyFile) && s.keyFile.value in env.existingFiles) && env.defaultKey !in env.existingFiles)
    ensures r.Err? ==> !IsLoopback(s.host) && (s.user.None? || (s.proxy.Some? && (s.proxy.value.host.None? || s.proxy.value.user.None?))
                                              || (s.proxy.None? && s.password.None?))
    ensures r.Ok? && r.value.ProxyCommand? ==>
      var p := s.proxy.value;
      && p.host.Some? && p.user.Some? && s.user.Some?
      && r.value.argv == ["ssh", "-o", "ProxyCommand=" + ProxyJump(p), s.user.value + "@" + s.host,
                          "-p", NatToString(PortOf(s)), Query]
    ensures var direct := !IsLoopback(s.host) && s.proxy.None? && s.user.Some?;
      var ownKey := Truthy(s.keyFile) && s.keyFile.value in env.existingFiles;
      && (direct && ownKey ==> r == Ok(DirectSsh(s.host, PortOf(s), s.user.value, KeyFile(s.keyFile.value))))
      && (direct && !ownKey && env.defaultKey in env.existingFiles ==>
            r == Ok(DirectSsh(s.host, PortOf(s), s.user.value, KeyFile(env.defaultKey))))
      && (direct && !ownKey && env.defaultKey !in env.existingFiles && s.password.None? ==> r.Err?)
      && (direct && !ownKey && env.defaultKey !in env.existingFiles && s.password.Some? ==>
            r == Ok(DirectSsh(s.host, PortOf(s), s.user.value, Password(s.password.value))))
    ensures r.Ok? && r.value.LocalCommand? ==> IsLoopback(s.host)
    ensures !IsLoopback(s.host) && s.user.None? ==> r.Err?
    ensures !IsLoopback(s.host) && s.proxy.Some? && (s.proxy.value.host.None? || s.proxy.value.user.None?) ==> r.Err?
  {
    if IsLoopback(s.host) then Ok(LocalCommand(LocalArgv))
    else if s.proxy.Some? then
      var p := s.proxy.value;
      if p.host.None? then Err("'host'")
      else if p.user.None? then Err("'user'")
      else if s.user.None? then Err("'user'")
      else Ok(ProxyCommand(["ssh", "-o", "ProxyCommand=" + ProxyJump(p), s.user.value + "@" + s.host,
                            "-p", NatToString(PortOf(s)), Query]))
    else if s.user.None? then Err("'user'")
    else if Truthy(s.keyFile) && s.keyFile.value in env.existingFiles then
      Ok(DirectSsh(s.host, PortOf(s), s.user.value, KeyFile(s.keyFile.value)))
    else if env.defaultKey in env.existingFiles then
      Ok(DirectSsh(s.host, PortOf(s), s.user.value, KeyFile(env.defaultKey)))
    else if s.password.None? then Err("'password'")
    else Ok(DirectSsh(s.host, PortOf(s), s.user.value, Password(s.password.value)))
  }

  /** Of the local files, only whether the server's own key and the default key exist decides the route. */
  lemma RouteDependsOnKeysOnly(s: Server, e1: Env, e2: Env)
    requires e1.defaultKey == e2.defaultKey
    requires Truthy(s.keyFile) ==> (s.keyFile.value in e1.existingFiles <==> s.keyFile.value in e2.existingFiles)
    requires e1.defaultKey in e1.existingFiles <==> e2.defaultKey in e2.existingFiles
    ensures ChooseRoute(s, e1) == ChooseRoute(s, e2)
  {
  }

  /** What running the route gave: the text on standard output, or the exception it raised. */
  datatype IoOutcome = Stdout(text: string) | Raised(msg: string)

  /** One parsed line of the query's answer. */
  datatype GpuReading = GpuReading(name: string, memUsed: int, memTotal: int, util: int)

  /** What the worker reports for one host: the readings and the text shown in list mode. */
  datatype HostInfo = HostInfo(gpuList: seq<GpuReading>, gpuInfo: string)

  /** A numeric field of the answer; `nvidia-smi` prints these as whole numbers with `nounits`. */
  function ParseReading(field: string): (r: Result<int>)
    ensures r.Ok? <==> ParseInt(field).Some?
    ensures r.Ok? ==> r.value == ParseInt(field).value
    ensures r.Err? ==> r.msg == "could not convert string to float: '" + Strip(field) + "'"
  {
    match ParseInt(field)
    case Some(v) => Ok(v)
    case None => Err("could not convert string to float: '" + Strip(field) + "'")
  }

  /** A field of whitespace, an optional sign, digits and whitespace reads as the signed value of the digits. */
  lemma ParseReadingAccepts(ws1: string, sign: string, digits: string, ws2: string)
    requires AllSpace(ws1) && AllSpace(ws2) && IsSign(sign) && digits != [] && AllDigits(digits)
    ensures ParseReading(ws1 + sign + digits + ws2) == Ok(Signed(sign, DigitsValue(digits)))
  {
    ParseIntAccepts(ws1, sign, digits, ws2);
  }

  /** A field holding `str(i)` amid whitespace reads as `i`. */
  lemma ParseReadingRendered(ws1: string, i: int, ws2: string)
    requires AllSpace(ws1) && AllSpace(ws2)
    ensures ParseReading(ws1 + IntToString(i) + ws2) == Ok(i)
  {
    var sign, digits := RenderedParts(i);
    Regroup(ws1, sign, digits, ws2);
    ParseReadingAccepts(ws1, sign, digits, ws2);
  }

  /** Every field that reads has that shape, and its value is the signed value of its digits. */
  lemma ParseReadingShape(field: string) returns (ws1: string, sign: string, digits: string, ws2: string)
    requires ParseReading(field).Ok?
    ensures field == ws1 + sign + digits + ws2
    ensures AllSpace(ws1) && AllSpace(ws2) && IsSign(sign) && digits != [] && AllDigits(digits)
    ensures ParseReading(field).value == Signed(sign, DigitsValue(digits))
  {
    ws1, sign, digits, ws2 := ParseIntParts(field);
  }

  /**
   * One line of the answer: `None` for a line with fewer than four comma-separated fields,
   * a reading from the first four fields otherwise, or the error of the first numeric
   * field that does not parse.
   */
  function ParseLine(line: string): (r: Result<Option<GpuReading>>)
    ensures r == Ok(None) <==> |Split(line, ',')| < 4
    ensures r.Ok? && r.value.Some? ==>
      var f := Split(line, ',');
      && |f| >= 4 && ParseInt(f[1]).Some? && ParseInt(f[2]).Some? && ParseInt(f[3]).Some?
      && r.value.value == GpuReading(Strip(f[0]), ParseInt(f[1]).value, ParseInt(f[2]).value, ParseInt(f[3]).value)
    ensures r.Err? <==>
      var f := Split(line, ',');
      |f| >= 4 && (ParseInt(f[1]).None? || ParseInt(f[2]).None? || ParseInt(f[3]).None?)
  {
    var f := Split(line, ',');
    if |f| < 4 then Ok(None)
    else
      match ParseReading(f[1])
      case Err(m) => Err(m)
      case Ok(used) =>
        match ParseReading(f[2])
        case Err(m) => Err(m)
        case Ok(total) =>
          match ParseReading(f[3])
          case Err(m) => Err(m)
          case Ok(util) => Ok(Some(GpuReading(Strip(f[0]), used, total, util)))
  }

  /** The text a line contributes to the list-mode summary. */
  function Fragment(line: string, reading: Option<GpuReading>): (t: string)
    ensures reading.Some? ==> StartsWith(t, "GPU: ")
    ensures reading.None? ==> StartsWith(t, "Invalid GPU data: ")
  {
    match reading
    case Some(g) =>
      var rest := g.name + "\nMemory: " + IntToString(g.memUsed) + "/" + IntToString(g.memTotal)
                  + " MB\nUtilization: " + IntToString(g.util) + "%\n";
      StartsWithAppend("GPU: ", rest);
      "GPU: " + rest
    case None =>
      StartsWithAppend("Invalid GPU data: ", line + "\n");
      "Invalid GPU data: " + line + "\n"
  }

  function OptionSeq(o: Option<GpuReading>): seq<GpuReading>
  {
    if o.Some? then [o.value] else []
  }

  /** The readings and the summary text accumulated over some lines. */
  datatype Parsed = Parsed(gpus: seq<GpuReading>, info: string)

  /** Parsing two runs of lines one after the other: the first error wins, otherwise readings and texts are joined. */
  function Combine(x: Result<Parsed>, y: Result<Parsed>): Result<Parsed>
  {
    match x
    case Err(m) => Err(m)
    case Ok(a) =>
      match y
      case Err(m) => Err(m)
      case Ok(b) => Ok(Parsed(a.gpus + b.gpus, a.info + b.info))
  }

  /** Nothing parsed yet. */
  const NothingParsed := Ok(Parsed([], ""))

  /** Combining runs of lines does not depend on how they are grouped. */
  lemma CombineAssoc(x: Result<Parsed>, y: Result<Parsed>, z: Result<Parsed>)
    ensures Combine(Combine(x, y), z) == Combine(x, Combine(y, z))
  {
    if x.Ok? && y.Ok? && z.Ok? {
      var a, b, c := x.value, y.value, z.value;
      assert (a.gpus + b.gpus) + c.gpus == a.gpus + (b.gpus + c.gpus);
      assert (a.info + b.info) + c.info == a.info + (b.info + c.info);
    }
  }

  /** An empty run of lines adds nothing on either side. */
  lemma CombineNothing(x: Result<Parsed>)
    ensures Combine(NothingParsed, x) == x && Combine(x, NothingParsed) == x
  {
    if x.Ok? {
      assert [] + x.value.gpus == x.value.gpus == x.value.gpus + [];
      assert "" + x.value.info == x.value.info == x.value.info + "";
    }
  }

  /** What one line adds: its reading, if any, and its text, or its error. */
  function LineResult(line: string): Result<Parsed>
  {
    match ParseLine(line)
    case Err(m) => Err(m)
    case Ok(g) => Ok(Parsed(OptionSeq(g), Fragment(line, g)))
  }

  /** The answer's lines parsed in order; the first failing line aborts the whole answer. */
  function ParseLines(lines: seq<string>): Result<Parsed>
  {
    if lines == [] then NothingParsed else Combine(LineResult(lines[0]), ParseLines(lines[1..]))
  }

  /** One line parsed on its own. */
  lemma ParseLinesSingle(line: string)
    ensures ParseLines([line]) == match ParseLine(line)
      case Err(m) => Err(m)
      case Ok(g) => Ok(Parsed(OptionSeq(g), Fragment(line, g)))
  {
    assert [line][1..] == [];
    CombineNothing(LineResult(line));
  }

  /** Parsing distributes over concatenation of the lines. */
  lemma {:induction false} ParseLinesAppend(a: seq<string>, b: seq<string>)
    ensures ParseLines(a + b) == Combine(ParseLines(a), ParseLines(b))
  {
    if a == [] {
      assert a + b == b;
      CombineNothing(ParseLines(b));
    } else {
      assert (a + b)[0] == a[0];
      assert (a + b)[1..] == a[1..] + b;
      ParseLinesAppend(a[1..], b);
      CombineAssoc(LineResult(a[0]), ParseLines(a[1..]), ParseLines(b));
    }
  }

  /** The lines with at least four fields: the ones that yield a reading. */
  function LongLines(lines: seq<string>): seq<string>
  {
    if lines == [] then []
    else (if |Split(lines[0], ',')| >= 4 then [lines[0]] else []) + LongLines(lines[1..])
  }

  /** A successful parse yields one reading per line with at least four fields, in order, and that line's reading. */
  lemma {:induction false} ParseLinesReadings(lines: seq<string>)
    requires ParseLines(lines).Ok?
    ensures var p := ParseLines(lines).value;
      && |p.gpus| == |LongLines(lines)|
      && forall k :: 0 <= k < |p.gpus| ==> ParseLine(LongLines(lines)[k]) == Ok(Some(p.gpus[k]))
  {
    if lines != [] {
      var g := ParseLine(lines[0]).value;
      var p := ParseLines(lines[1..]).value;
      ParseLinesReadings(lines[1..]);
      var q := ParseLines(lines).value;
      assert q.gpus == OptionSeq(g) + p.gpus;
      if g.Some? {
        assert LongLines(lines) == [lines[0]] + LongLines(lines[1..]);
        forall k | 0 <= k < |q.gpus| ensures ParseLine(LongLines(lines)[k]) == Ok(Some(q.gpus[k])) {
          if k > 0 {
            assert LongLines(lines)[k] == LongLines(lines[1..])[k - 1];
            assert q.gpus[k] == p.gpus[k - 1];
          }
        }
      } else {
        assert LongLines(lines) == LongLines(lines[1..]);
        assert q.gpus == p.gpus;
      }
    }
  }

  /** The answer fails to parse exactly when one of its lines does. */
  lemma {:induction false} ParseLinesFails(lines: seq<string>)
    ensures ParseLines(lines).Err? <==> exists k :: 0 <= k < |lines| && ParseLine(lines[k]).Err?
  {
    if ParseLines(lines).Err? {
      var k := FailingLine(lines);
    }
    if exists k :: 0 <= k < |lines| && ParseLine(lines[k]).Err? {
      var k :| 0 <= k < |lines| && ParseLine(lines[k]).Err?;
      FailingLineSpoils(lines, k);
    }
  }

  /** A line's contribution fails exactly when the line does, with the line's error. */
  lemma LineResultErr(line: string)
    ensures LineResult(line).Err? <==> ParseLine(line).Err?
    ensures ParseLine(line).Err? ==> LineResult(line) == Err(ParseLine(line).msg)
  {
  }

  /** A failed parse has a failing line. */
  lemma {:induction false} FailingLine(lines: seq<string>) returns (k: int)
    requires ParseLines(lines).Err?
    ensures 0 <= k < |lines| && ParseLine(lines[k]).Err?
  {
    LineResultErr(lines[0]);
    if ParseLine(lines[0]).Err? {
      k := 0;
    } else {
      var j := FailingLine(lines[1..]);
      k := j + 1;
    }
  }

  /** A failing line makes the parse fail. */
  lemma {:induction false} FailingLineSpoils(lines: seq<string>, k: int)
    requires 0 <= k < |lines| && ParseLine(lines[k]).Err?
    ensures ParseLines(lines).Err?
  {
    LineResultErr(lines[0]);
    if k > 0 {
      assert lines[1..][k - 1] == lines[k];
      FailingLineSpoils(lines[1..], k - 1);
    }
  }

  /** The note a line with fewer than four fields leaves in the summary. */
  function InvalidNote(line: string): string
  {
    "Invalid GPU data: " + line + "\n"
  }

  /** Inserting a run that yields no reading between two parses changes neither success nor the readings. */
  lemma CombineNoReadings(x: Result<Parsed>, note: string, y: Result<Parsed>)
    ensures Combine(Combine(x, Ok(Parsed([], note))), y).Ok? <==> Combine(x, y).Ok?
    ensures Combine(x, y).Ok? ==> Combine(Combine(x, Ok(Parsed([], note))), y).value.gpus == Combine(x, y).value.gpus
  {
    if x.Ok? {
      assert x.value.gpus + [] == x.value.gpus;
    }
  }

  /** A line with fewer than four fields adds an `Invalid GPU data` note and removes no reading. */
  lemma ShortLineKeepsReadings(a: seq<string>, line: string, b: seq<string>)
    requires |Split(line, ',')| < 4
    ensures ParseLines(a + [line] + b) == Combine(Combine(ParseLines(a), Ok(Parsed([], InvalidNote(line)))), ParseLines(b))
    ensures ParseLines(a + [line] + b).Ok? <==> ParseLines(a + b).Ok?
    ensures ParseLines(a + b).Ok? ==> ParseLines(a + [line] + b).value.gpus == ParseLines(a + b).value.gpus
  {
    ParseLinesAppend(a + [line], b);
    ParseLinesAppend(a, [line]);
    ParseLinesAppend(a, b);
    ParseLinesSingle(line);
    CombineNoReadings(ParseLines(a), InvalidNote(line), ParseLines(b));
  }

  /** A successful parse of at least one line starts its summary with `GPU: ` or `Invalid GPU data: `. */
  lemma ParsedInfoStart(lines: seq<string>)
    requires lines != [] && ParseLines(lines).Ok?
    ensures var t := ParseLines(lines).value.info; t != [] && (t[0] == 'G' || t[0] == 'I')
  {
    var g := ParseLine(lines[0]).value;
    var f := Fragment(lines[0], g);
    assert f[0] == (if g.Some? then "GPU: " else "Invalid GPU data: ")[0];
  }

  /** The summary of a host that failed: no readings and the exception's text. */
  function ErrorInfo(msg: string): HostInfo
  {
    HostInfo([], "Error: " + msg)
  }

  /** The summary of a parsed answer: its readings and its stripped text, or the error. */
  function Summary(r: Result<Parsed>): HostInfo
  {
    match r
    case Err(m) => ErrorInfo(m)
    case Ok(p) => HostInfo(p.gpus, Strip(p.info))
  }

  /** The summary built from the query's standard output. */
  function OutputInfo(output: string): HostInfo
  {
    var out := Strip(output);
    if out == [] then HostInfo([], "No GPU data") else Summary(ParseLines(Split(out, '\n')))
  }

  /** The summary the worker reports for one server, given what running its route gave. */
  function FetchInfo(s: Server, env: Env, io: IoOutcome): HostInfo
  {
    match ChooseRoute(s, env)
    case Err(m) => ErrorInfo(m)
    case Ok(_) =>
      match io
      case Raised(m) => ErrorInfo(m)
      case Stdout(t) => OutputInfo(t)
  }

  /** The ways a query fails: no route, the command raised, or a line of a non-empty answer does not parse. */
  predicate Fails(s: Server, env: Env, io: IoOutcome)
  {
    || ChooseRoute(s, env).Err?
    || io.Raised?
    || (Strip(io.text) != [] && ParseLines(Split(Strip(io.text), '\n')).Err?)
  }

  /** A summary starts with `Error: ` exactly when the parse failed, given that a successful parse's text starts with `G` or `I`. */
  lemma SummaryError(r: Result<Parsed>)
    requires r.Ok? ==> r.value.info != [] && (r.value.info[0] == 'G' || r.value.info[0] == 'I')
    ensures StartsWith(Summary(r).gpuInfo, "Error: ") <==> r.Err?
  {
    var info := Summary(r).gpuInfo;
    if r.Err? {
      assert info[..7] == "Error: ";
    } else {
      StripKeepsFirst(r.value.info);
      assert info[0] != "Error: "[0];
    }
  }

  /** A parsed answer's summary starts with `Error: ` exactly when a line of a non-empty answer does not parse. */
  lemma OutputInfoError(text: string)
    ensures StartsWith(OutputInfo(text).gpuInfo, "Error: ") <==>
      (Strip(text) != [] && ParseLines(Split(Strip(text), '\n')).Err?)
  {
    var out := Strip(text);
    if out != [] {
      var lines := Split(out, '\n');
      if ParseLines(lines).Ok? {
        ParsedInfoStart(lines);
      }
      SummaryError(ParseLines(lines));
    } else {
      assert OutputInfo(text).gpuInfo[0] != "Error: "[0];
    }
  }

  /** The summary starts with `Error: ` exactly when the query failed, and a failed query reports no readings. */
  lemma FetchInfoError(s: Server, env: Env, io: IoOutcome)
    ensures StartsWith(FetchInfo(s, env, io).gpuInfo, "Error: ") <==> Fails(s, env, io)
    ensures Fails(s, env, io) ==> FetchInfo(s, env, io).gpuList == []
  {
    var info := FetchInfo(s, env, io).gpuInfo;
    if ChooseRoute(s, env).Err? || io.Raised? {
      assert info[..7] == "Error: ";
    } else {
      OutputInfoError(io.text);
    }
  }

  /** An empty answer is reported as `No GPU data` with no readings. */
  lemma EmptyAnswer(s: Server, env: Env, text: string)
    requires ChooseRoute(s, env).Ok? && AllSpace(text)
    ensures FetchInfo(s, env, Stdout(text)) == HostInfo([], "No GPU data")
  {
    StripAllSpace(text);
  }

  /** Parsing one more line that parses extends the readings and the text. */
  lemma ParseSnoc(pre: seq<string>, line: string, done: Parsed, g: Option<GpuReading>)
    requires ParseLines(pre) == Ok(done) && ParseLine(line) == Ok(g)
    ensures ParseLines(pre + [line]) == Ok(Parsed(done.gpus + OptionSeq(g), done.info + Fragment(line, g)))
  {
    ParseLinesAppend(pre, [line]);
    ParseLinesSingle(line);
  }

  /** Extending a successful parse of a prefix by a line that parses. */
  lemma ParsePrefixStep(lines: seq<string>, i: int, done: Parsed, g: Option<GpuReading>)
    requires 0 <= i < |lines| && ParseLines(lines[..i]) == Ok(done) && ParseLine(lines[i]) == Ok(g)
    ensures ParseLines(lines[..i + 1]) == Ok(Parsed(done.gpus + OptionSeq(g), done.info + Fragment(lines[i], g)))
  {
    assert lines[..i + 1] == lines[..i] + [lines[i]];
    ParseSnoc(lines[..i], lines[i], done, g);
  }

  /** A first line that fails makes the whole answer fail with its error. */
  lemma ParseFailsFirst(lines: seq<string>)
    requires lines != [] && ParseLine(lines[0]).Err?
    ensures ParseLines(lines) == Err(ParseLine(lines[0]).msg)
  {
    LineResultErr(lines[0]);
  }

  lemma TakeDrop(lines: seq<string>, i: int)
    requires 0 <= i <= |lines|
    ensures lines[..i] + lines[i..] == lines
  {
  }

  /** After a successful prefix, a line that fails makes the whole answer fail with its error. */
  lemma ParseFailsAt(lines: seq<string>, i: int)
    requires 0 <= i < |lines| && ParseLines(lines[..i]).Ok? && ParseLine(lines[i]).Err?
    ensures ParseLines(lines) == Err(ParseLine(lines[i]).msg)
  {
    var pre, post := lines[..i], lines[i..];
    var m := ParseLine(lines[i]).msg;
    TakeDrop(lines, i);
    assert post[0] == lines[i];
    calc {
      ParseLines(lines);
      { ParseLinesAppend(pre, post); }
      Combine(ParseLines(pre), ParseLines(post));
      { ParseFailsFirst(post); }
      Combine(ParseLines(pre), Err(m));
      Err(m);
    }
  }

  lemma TakeAll(lines: seq<string>)
    ensures lines[..|lines|] == lines
  {
  }

  lemma NoReading(gpus: seq<GpuReading>)
    ensures gpus + OptionSeq(None) == gpus
  {
  }

  /** The worker's loop over the answer's lines: the readings and the text so far, or the first line's failure. */
  method ParseEach(lines: seq<string>) returns (r: Result<Parsed>)
    ensures r == ParseLines(lines)
  {
    var gpuList: seq<GpuReading> := [];
    var gpuInfo := "";
    var i := 0;
    while i < |lines|
      invariant 0 <= i <= |lines|
      invariant ParseLines(lines[..i]) == Ok(Parsed(gpuList, gpuInfo))
    {
      var line := lines[i];
      var parsed := ParseLine(line);
      if parsed.Err? {
        ParseFailsAt(lines, i);
        return Err(parsed.msg);
      }
      var reading := parsed.value;
      ParsePrefixStep(lines, i, Parsed(gpuList, gpuInfo), reading);
      if reading.Some? {
        gpuList := gpuList + [reading.value];
      } else {
        NoReading(gpuList);
      }
      gpuInfo := gpuInfo + Fragment(line, reading);
      i := i + 1;
    }
    TakeAll(lines);
    r := Ok(Parsed(gpuList, gpuInfo));
  }

  /** Parses the query's answer line by line, as the worker does. */
  method ParseOutput(output: string) returns (r: HostInfo)
    ensures r == OutputInfo(output)
  {
    var out := Strip(output);
    if out == [] {
      return HostInfo([], "No GPU data");
    }
    var parsed := ParseEach(Split(out, '\n'));
    match parsed {
      case Err(m) => r := ErrorInfo(m);
      case Ok(p) => r := HostInfo(p.gpus, Strip(p.info));
    }
  }

  /** Queries one server: the route, then the answer's parse; any failure becomes an `Error: ` summary. */
  method GetGpuInfo(s: Server, env: Env, io: IoOutcome) returns (info: HostInfo)
    ensures info == FetchInfo(s, env, io)
  {
    var route := ChooseRoute(s, env);
    if route.Err? {
      return ErrorInfo(route.msg);
    }
    match io {
      case Raised(m) => info := ErrorInfo(m);
      case Stdout(t) => info := ParseOutput(t);
    }
  }

  /** The identifiers of the configured servers, in order. */
  function Ids(servers: seq<Server>): (ids: seq<string>)
    ensures |ids| == |servers|
    ensures forall i :: 0 <= i < |servers| ==> ids[i] == ServerId(servers[i])
  {
    if servers == [] then [] else Ids(servers[..|servers| - 1]) + [ServerId(servers[|servers| - 1])]
  }

  /** Taking one more server adds its identifier at the end. */
  lemma IdsStep(servers: seq<Server>, i: int)
    requires 0 <= i < |servers|
    ensures Ids(servers[..i + 1]) == Ids(servers[..i]) + [ServerId(servers[i])]
  {
    assert servers[..i + 1][..i] == servers[..i];
  }

  /** The summary of every server in a round, in order. */
  function FetchAll(servers: seq<Server>, env: Env, ios: seq<IoOutcome>): (infos: seq<HostInfo>)
    requires |ios| == |servers|
    ensures |infos| == |servers|
  {
    seq(|servers|, i requires 0 <= i < |servers| => FetchInfo(servers[i], env, ios[i]))
  }

  /** One polling round's table: each summary filed under its server's identifier, a later server overwriting an earlier one with the same identifier. */
  function RoundData(servers: seq<Server>, infos: seq<HostInfo>): map<string, HostInfo>
    requires |infos| == |servers|
  {
    if servers == [] then map[]
    else
      var n := |servers| - 1;
      RoundData(servers[..n], infos[..n])[ServerId(servers[n]) := infos[n]]
  }

  /** A round reports exactly the configured identifiers. */
  lemma {:induction false} RoundDataKeys(servers: seq<Server>, infos: seq<HostInfo>)
    requires |infos| == |servers|
    ensures forall h :: h in RoundData(servers, infos) <==> h in Ids(servers)
  {
    if servers != [] {
      var n := |servers| - 1;
      RoundDataKeys(servers[..n], infos[..n]);
      assert Ids(servers) == Ids(servers[..n]) + [ServerId(servers[n])];
    }
  }

  /** Each identifier carries the summary of the last server with that identifier. */
  lemma {:induction false} RoundDataLastWins(servers: seq<Server>, infos: seq<HostInfo>, i: int)
    requires |infos| == |servers| && 0 <= i < |servers|
    requires forall j :: i < j < |servers| ==> ServerId(servers[j]) != ServerId(servers[i])
    ensures ServerId(servers[i]) in RoundData(servers, infos)
    ensures RoundData(servers, infos)[ServerId(servers[i])] == infos[i]
  {
    var n := |servers| - 1;
    if i < n {
      assert ServerId(servers[n]) != ServerId(servers[i]);
      assert servers[..n][i] == servers[i] && infos[..n][i] == infos[i];
      RoundDataLastWins(servers[..n], infos[..n], i);
    }
  }

  /** One more server's summary is one more entry of the round's table. */
  lemma RoundDataStep(servers: seq<Server>, infos: seq<HostInfo>, i: int)
    requires |infos| == |servers| && 0 <= i < |servers|
    ensures RoundData(servers[..i + 1], infos[..i + 1]) == RoundData(servers[..i], infos[..i])[ServerId(servers[i]) := infos[i]]
  {
    assert servers[..i + 1][..i] == servers[..i] && infos[..i + 1][..i] == infos[..i];
  }

  /** One iteration of the worker's loop: query every server in turn and collect the summaries. */
  method CollectRound(servers: seq<Server>, env: Env, ios: seq<IoOutcome>) returns (data: map<string, HostInfo>)
    requires |ios| == |servers|
    ensures data == RoundData(servers, FetchAll(servers, env, ios))
  {
    ghost var infos := FetchAll(servers, env, ios);
    data := map[];
    var i := 0;
    while i < |servers|
      invariant 0 <= i <= |servers|
      invariant data == RoundData(servers[..i], infos[..i])
    {
      var info := GetGpuInfo(servers[i], env, ios[i]);
      RoundDataStep(servers, infos, i);
      data := data[ServerId(servers[i]) := info];
      i := i + 1;
    }
    assert servers[..i] == servers && infos[..i] == infos;
  }

  /** Whether a summary shows the host at work: some device reports a utilization above zero. */
  predicate Active(info: HostInfo)
  {
    info.gpuList != [] && exists k :: 0 <= k < |info.gpuList| && info.gpuList[k].util > 0
  }

  /** The last-active times after a display update at `now`: the hosts shown at work are stamped. */
  function Refreshed(last: map<string, int>, data: map<string, HostInfo>, now: int): (r: map<string, int>)
    ensures r.Keys == last.Keys
  {
    map h | h in last :: if h in data && Active(data[h]) then now else last[h]
  }

  /** The hosts, in order, whose last activity lies more than `threshold` seconds before `now`. */
  function IdleAmong(hosts: seq<string>, last: map<string, int>, now: int, threshold: int): seq<string>
    requires forall i :: 0 <= i < |hosts| ==> hosts[i] in last
  {
    if hosts == [] then []
    else
      var n := |hosts| - 1;
      IdleAmong(hosts[..n], last, now, threshold) + (if now - last[hosts[n]] > threshold then [hosts[n]] else [])
  }

  /** A host is reported idle exactly when it is listed and its idle time exceeds the threshold. */
  lemma {:induction false} IdleAmongMembers(hosts: seq<string>, last: map<string, int>, now: int, threshold: int)
    requires forall i :: 0 <= i < |hosts| ==> hosts[i] in last
    ensures forall h :: h in IdleAmong(hosts, last, now, threshold) <==> h in hosts && now - last[h] > threshold
  {
    if hosts != [] {
      var n := |hosts| - 1;
      IdleAmongMembers(hosts[..n], last, now, threshold);
      assert hosts == hosts[..n] + [hosts[n]];
    }
  }

  /** A host stamped at `now` is not idle at any time up to `threshold` seconds later. */
  lemma RefreshedNotIdle(last: map<string, int>, data: map<string, HostInfo>, now: int, h: string, t: int, threshold: int)
    requires h in last && h in data && Active(data[h])
    requires t - now <= threshold
    ensures !(t - Refreshed(last, data, now)[h] > threshold)
  {
  }

  /** The text of the idle notification, or `None` when nothing is idle. */
  function IdleAlert(idle: seq<string>, threshold: int): (r: Option<string>)
    ensures r.Some? <==> idle != []
    ensures r.Some? ==> StartsWith(r.value, "GPUs on servers " + Join(idle, ", "))
  {
    if idle == [] then None
    else
      var head := "GPUs on servers " + Join(idle, ", ");
      var msg := head + " have been idle for more than " + IntToString(threshold / 60) + " minutes.";
      assert msg[..|head|] == head;
      Some(msg)
  }

  predicate Distinct(s: seq<string>)
  {
    forall i, j :: 0 <= i < j < |s| ==> s[i] != s[j]
  }

  /** The idle bookkeeping of the GPU monitor widget: when each server was last seen at work. */
  class GpuMonitor {
    /** The keys of the last-active table, in insertion order. */
    var hosts: seq<string>
    var lastActive: map<string, int>

    ghost predicate Valid()
      reads this
    {
      && Distinct(hosts)
      && (forall h :: h in lastActive <==> h in hosts)
    }

    /** Every configured server starts out active at `now`. */
    constructor(servers: seq<Server>, now: int)
      ensures Valid()
      ensures forall h :: h in lastActive <==> h in Ids(servers)
      ensures forall h :: h in lastActive ==> lastActive[h] == now
    {
      var hs: seq<string> := [];
      var last: map<string, int> := map[];
      ghost var seen: seq<string> := [];
      var i := 0;
      while i < |servers|
        invariant 0 <= i <= |servers|
        invariant seen == Ids(servers[..i])
        invariant Distinct(hs)
        invariant forall h :: h in last <==> h in hs
        invariant forall h :: h in hs <==> h in seen
        invariant forall h :: h in last ==> last[h] == now
      {
        var id := ServerId(servers[i]);
        IdsStep(servers, i);
        seen := seen + [id];
        if id !in last {
          hs := hs + [id];
        }
        last := last[id := now];
        i := i + 1;
      }
      assert servers[..|servers|] == servers;
      hosts := hs;
      lastActive := last;
    }

    /** A display update: the hosts whose new summary shows activity are stamped with `now`. */
    method UpdateDisplay(gpuData: map<string, HostInfo>, now: int)
      requires Valid()
      modifies this
      ensures Valid()
      ensures hosts == old(hosts)
      ensures lastActive == Refreshed(old(lastActive), gpuData, now)
    {
      var pending := gpuData.Keys;
      while pending != {}
        invariant pending <= gpuData.Keys
        invariant hosts == old(hosts)
        invariant lastActive.Keys == old(lastActive).Keys
        invariant forall h :: h in lastActive ==>
          lastActive[h] == if h in gpuData && h !in pending && Active(gpuData[h]) then now else old(lastActive)[h]
        decreases pending
      {
        var h :| h in pending;
        if h in lastActive && Active(gpuData[h]) {
          lastActive := lastActive[h := now];
        }
        pending := pending - {h};
      }
    }

    /** The idle check: the hosts idle for longer than `threshold` seconds, in insertion order. */
    method CheckIdle(now: int, threshold: int) returns (idle: seq<string>)
      requires Valid()
      ensures idle == IdleAmong(hosts, lastActive, now, threshold)
    {
      idle := [];
      var i := 0;
      while i < |hosts|
        invariant 0 <= i <= |hosts|
        invariant idle == IdleAmong(hosts[..i], lastActive, now, threshold)
      {
        assert hosts[..i + 1][..i] == hosts[..i];
        if now - lastActive[hosts[i]] > threshold {
          idle := idle + [hosts[i]];
        }
        i := i + 1;
      }
      assert hosts[..i] == hosts;
    }
  }

  /** The update-interval choices of the settings dialog. */
  const IntervalChoices: seq<string> := ["1 second", "5 seconds", "10 seconds", "30 seconds", "1 minute"]

  /** The choice shown for a stored interval in seconds; an interval without a choice shows as `5 seconds`. */
  function IntervalText(seconds: int): string
  {
    if seconds == 1 then "1 second"
    else if seconds == 5 then "5 seconds"
    else if seconds == 10 then "10 seconds"
    else if seconds == 30 then "30 seconds"
    else if seconds == 60 then "1 minute"
    else "5 seconds"
  }

  /** The seconds saved for a choice; an unknown text saves 5. */
  function IntervalSeconds(text: string): int
  {
    if text == "1 second" then 1
    else if text == "5 seconds" then 5
    else if text == "10 seconds" then 10
    else if text == "30 seconds" then 30
    else if text == "1 minute" then 60
    else 5
  }

  /** A stored interval with a choice survives showing and saving; any other becomes 5 seconds. */
  lemma IntervalRoundTrip(seconds: int)
    ensures IntervalSeconds(IntervalText(seconds)) == (if seconds in {1, 5, 10, 30, 60} then seconds else 5)
    ensures IntervalText(seconds) in IntervalChoices
  {
  }

  /** Every choice survives saving and showing again. */
  lemma IntervalChoiceRoundTrip(text: string)
    requires text in IntervalChoices
    ensures IntervalText(IntervalSeconds(text)) == text
  {
  }

  /** The idle threshold is shown in whole minutes, rounded down. */
  function IdleMinutesText(threshold: int): string
  {
    IntToString(threshold / 60)
  }

  /** The settings the dialog saves; a key missing from the stored configuration is `None`. */
  datatype GpuConfig = GpuConfig(
    displayStyle: Option<string>,
    updateInterval: Option<int>,
    idleThreshold: Option<int>,
    autoStart: Option<bool>,
    fontSize: Option<int>)

  /** The controls passed to an auto-save, with their current text or state; `None` for a control not passed. */
  datatype Controls = Controls(
    style: Option<string>,
    interval: Option<string>,
    idleMinutes: Option<string>,
    autoStart: Option<bool>,
    fontSize: Option<string>)

  const NoControls := Controls(None, None, None, None, None)

  /** A whole number of minutes in seconds. */
  function MinutesToSeconds(minutes: int): (s: int)
    ensures s % 60 == 0 && s / 60 == minutes
  {
    minutes * 60
  }

  /** `int(text)`, raising on text that is not a decimal integer. */
  function IntOf(text: string): (r: Result<int>)
    ensures r.Ok? <==> ParseInt(text).Some?
    ensures r.Ok? ==> r.value == ParseInt(text).value
    ensures r.Err? ==> r.msg == "invalid literal for int() with base 10: '" + text + "'"
  {
    match ParseInt(text)
    case Some(v) => Ok(v)
    case None => Err("invalid literal for int() with base 10: '" + text + "'")
  }

  /** `int()` accepts whitespace, an optional sign, digits and whitespace, giving the signed value of the digits. */
  lemma IntOfAccepts(ws1: string, sign: string, digits: string, ws2: string)
    requires AllSpace(ws1) && AllSpace(ws2) && IsSign(sign) && digits != [] && AllDigits(digits)
    ensures IntOf(ws1 + sign + digits + ws2) == Ok(Signed(sign, DigitsValue(digits)))
  {
    ParseIntAccepts(ws1, sign, digits, ws2);
  }

  /** `int()` of `str(i)` amid whitespace is `i`. */
  lemma IntOfRendered(ws1: string, i: int, ws2: string)
    requires AllSpace(ws1) && AllSpace(ws2)
    ensures IntOf(ws1 + IntToString(i) + ws2) == Ok(i)
  {
    var sign, digits := RenderedParts(i);
    Regroup(ws1, sign, digits, ws2);
    IntOfAccepts(ws1, sign, digits, ws2);
  }

  /** Every text `int()` accepts has that shape, and converts to the signed value of its digits. */
  lemma IntOfShape(text: string) returns (ws1: string, sign: string, digits: string, ws2: string)
    requires IntOf(text).Ok?
    ensures text == ws1 + sign + digits + ws2
    ensures AllSpace(ws1) && AllSpace(ws2) && IsSign(sign) && digits != [] && AllDigits(digits)
    ensures IntOf(text).value == Signed(sign, DigitsValue(digits))
  {
    ws1, sign, digits, ws2 := ParseIntParts(text);
  }

  /**
   * The dialog's auto-save: each setting comes from its control when passed and from the
   * stored configuration otherwise; the interval goes through its text, the threshold
   * through whole minutes. The font size is converted first, then the idle minutes.
   */
  function AutoSave(cfg: GpuConfig, c: Controls): (r: Result<GpuConfig>)
    ensures r.Err? <==>
      (c.fontSize.Some? && ParseInt(c.fontSize.value).None?) || (c.idleMinutes.Some? && ParseInt(c.idleMinutes.value).None?)
  {
    var style := match c.style
      case Some(t) => if t == "Compact" then "compact" else "list"
      case None => cfg.displayStyle.GetOr("list");
    var intervalText := match c.interval
      case Some(t) => t
      case None => IntervalText(cfg.updateInterval.GetOr(1));
    var idleText := match c.idleMinutes
      case Some(t) => t
      case None => IdleMinutesText(cfg.idleThreshold.GetOr(300));
    var autoStart := match c.autoStart
      case Some(b) => b
      case None => cfg.autoStart.GetOr(true);
    var font := match c.fontSize
      case Some(t) => IntOf(t)
      case None => Ok(cfg.fontSize.GetOr(10));
    ParseIntRoundTrip(cfg.idleThreshold.GetOr(300) / 60);
    match font
    case Err(m) => Err(m)
    case Ok(size) =>
      match IntOf(idleText)
      case Err(m) => Err(m)
      case Ok(minutes) =>
        Ok(GpuConfig(Some(style), Some(IntervalSeconds(intervalText)), Some(MinutesToSeconds(minutes)), Some(autoStart), Some(size)))
  }

  /** What a successful auto-save writes: every setting, the interval one of the choices, the threshold whole minutes taken from the control or the stored threshold. */
  lemma AutoSaveWrites(cfg: GpuConfig, c: Controls)
    requires AutoSave(cfg, c).Ok?
    ensures var n := AutoSave(cfg, c).value;
      && n.displayStyle.Some? && n.updateInterval.Some? && n.idleThreshold.Some? && n.autoStart.Some? && n.fontSize.Some?
      && n.updateInterval.value in {1, 5, 10, 30, 60}
      && n.idleThreshold.value % 60 == 0
      && (c.idleMinutes.Some? ==> ParseInt(c.idleMinutes.value) == Some(n.idleThreshold.value / 60))
      && (c.idleMinutes.None? ==> n.idleThreshold.value == cfg.idleThreshold.GetOr(300) / 60 * 60)
      && (c.style.Some? ==> n.displayStyle.value == if c.style.value == "Compact" then "compact" else "list")
      && (c.interval.Some? ==> n.updateInterval.value == IntervalSeconds(c.interval.value))
      && (c.fontSize.Some? ==> ParseInt(c.fontSize.value) == Some(n.fontSize.value))
      && (c.style.None? ==> n.displayStyle.value == cfg.displayStyle.GetOr("list"))
      && (c.interval.None? ==>
            var stored := cfg.updateInterval.GetOr(1);
            n.updateInterval.value == if stored in {1, 5, 10, 30, 60} then stored else 5)
      && (c.fontSize.None? ==> n.fontSize.value == cfg.fontSize.GetOr(10))
      && (c.autoStart.Some? ==> n.autoStart.value == c.autoStart.value)
      && (c.autoStart.None? ==> n.autoStart.value == cfg.autoStart.GetOr(true))
  {
    ParseIntRoundTrip(cfg.idleThreshold.GetOr(300) / 60);
    IntervalRoundTrip(cfg.updateInterval.GetOr(1));
  }

  /** The stored configuration as an auto-save that changes no control writes it back. */
  function Normalized(cfg: GpuConfig): GpuConfig
  {
    var interval := cfg.updateInterval.GetOr(1);
    GpuConfig(
      Some(cfg.displayStyle.GetOr("list")),
      Some(if interval in {1, 5, 10, 30, 60} then interval else 5),
      Some(cfg.idleThreshold.GetOr(300) / 60 * 60),
      Some(cfg.autoStart.GetOr(true)),
      Some(cfg.fontSize.GetOr(10)))
  }

  /** Saving with no control passed fills in the defaults, snaps the interval to a choice and the threshold to whole minutes, and then is a fixed point. */
  lemma AutoSaveNormalizes(cfg: GpuConfig)
    ensures AutoSave(cfg, NoControls) == Ok(Normalized(cfg))
    ensures AutoSave(Normalized(cfg), NoControls) == Ok(Normalized(cfg))
  {
    IntervalRoundTrip(cfg.updateInterval.GetOr(1));
    ParseIntRoundTrip(cfg.idleThreshold.GetOr(300) / 60);
    var n := Normalized(cfg);
    IntervalRoundTrip(n.updateInterval.value);
    ParseIntRoundTrip(n.idleThreshold.value / 60);
  }

  /** A threshold saved from the minutes control shows that same number of minutes again. */
  lemma IdleThresholdRoundTrip(cfg: GpuConfig, c: Controls)
    requires c.idleMinutes.Some? && AutoSave(cfg, c).Ok?
    ensures ParseInt(IdleMinutesText(AutoSave(cfg, c).value.idleThreshold.value)) == ParseInt(c.idleMinutes.value)
  {
    var t := AutoSave(cfg, c).value.idleThreshold.value;
    ParseIntRoundTrip(t / 60);
  }

  /** The short-name table, in the order its entries are tried: a key found anywhere in the name gives its value. */
  const GpuNameTable: seq<(string, string)> := DataCenterNames + RtxNames + OtherNames

  /** The AMD, Intel and older Tesla entries. */
  const OtherNames: seq<(string, string)> := AmdNames + IntelNames + TeslaNames

  /** The entries for NVIDIA data-center GPUs. */
  const DataCenterNames: seq<(string, string)> := [
    ("A100", "A100"),
    ("A800", "A800"),
    ("A6000", "A6000"),
    ("A40", "A40"),
    ("H100", "H100"),
    ("H200", "H200"),
    ("L40", "L40"),
    ("L40S", "L40S"),
    ("L4", "L4"),
    ("T4", "T4"),
    ("V100", "V100"),
    ("P100", "P100"),
    ("P40", "P40")
  ]

  /** The entries for NVIDIA RTX GPUs. */
  const RtxNames: seq<(string, string)> := [
    ("RTX 6000", "RTX 6000"),
    ("RTX 5880", "RTX 5880"),
    ("RTX 5000", "RTX 5000"),
    ("RTX 4880", "RTX 4880"),
    ("RTX 4000", "RTX 4000"),
    ("RTX 5070 Ti", "RTX 5070Ti"),
    ("RTX 5070", "RTX 5070"),
    ("RTX 5000 Ada", "RTX 5000A"),
    ("RTX 4000 SFF Ada", "RTX 4000A"),
    ("RTX 4500", "RTX 4500"),
    ("RTX 4500 Ada", "RTX 4500A"),
    ("RTX 4090", "RTX 4090"),
    ("RTX 4080", "RTX 4080"),
    ("RTX 4070 Ti", "RTX 4070Ti"),
    ("RTX 4070", "RTX 4070"),
    ("RTX 4060 Ti", "RTX 4060Ti"),
    ("RTX 4060", "RTX 4060"),
    ("RTX 3090 Ti", "RTX 3090Ti"),
    ("RTX 3090", "RTX 3090"),
    ("RTX 3080 Ti", "RTX 3080Ti"),
    ("RTX 3080", "RTX 3080"),
    ("RTX 3070 Ti", "RTX 3070Ti"),
    ("RTX 3070", "RTX 3070"),
    ("RTX 3060 Ti", "RTX 3060Ti"),
    ("RTX 3060", "RTX 3060"),
    ("RTX 2080 Ti", "RTX 2080Ti"),
    ("RTX 2080", "RTX 2080"),
    ("RTX 2070", "RTX 2070")
  ]

  /** The entries for AMD GPUs. */
  const AmdNames: seq<(string, string)> := [
    ("MI300X", "MI300X"),
    ("MI300", "MI300"),
    ("MI250X", "MI250X"),
    ("MI250", "MI250"),
    ("MI210", "MI210"),
    ("MI100", "MI100"),
    ("MI50", "MI50"),
    ("MI25", "MI25"),
    ("RX 7900 XTX", "RX 7900XTX"),
    ("RX 7900 XT", "RX 7900XT"),
    ("RX 7900", "RX 7900"),
    ("RX 6900 XT", "RX 6900XT"),
    ("RX 6800 XT", "RX 6800XT"),
    ("RX 6700 XT", "RX 6700XT")
  ]

  /** The entries for Intel GPUs. */
  const IntelNames: seq<(string, string)> := [
    ("Arc A770", "Arc A770"),
    ("Arc A750", "Arc A750"),
    ("Arc A380", "Arc A380"),
    ("Data Center GPU Flex 170", "GPU Flex170"),
    ("Data Center GPU Flex 140", "GPU Flex140")
  ]

  /** The entries for older Tesla GPUs. */
  const TeslaNames: seq<(string, string)> := [
    ("Tesla M40", "M40"),
    ("Tesla M10", "M10"),
    ("Tesla K40", "K40"),
    ("Tesla K20", "K20")
  ]

  /** Entry `i` is the first whose key occurs in `name`. */
  predicate FirstMatchAt(table: seq<(string, string)>, name: string, i: int)
  {
    && 0 <= i < |table|
    && Contains(name, table[i].0)
    && forall j :: 0 <= j < i ==> !Contains(name, table[j].0)
  }

  /** The first entry whose key occurs in `name`. */
  function FirstMatch(table: seq<(string, string)>, name: string): (r: Option<nat>)
    ensures r.Some? ==> FirstMatchAt(table, name, r.value)
    ensures r.None? <==> forall i :: 0 <= i < |table| ==> !Contains(name, table[i].0)
  {
    if table == [] then None
    else if Contains(name, table[0].0) then Some(0)
    else
      match FirstMatch(table[1..], name)
      case None => None
      case Some(k) =>
        assert forall j :: 1 <= j <= k ==> table[j] == table[1..][j - 1];
        Some(k + 1)
  }

  /** At most one entry is the first match. */
  lemma FirstMatchUnique(table: seq<(string, string)>, name: string, i: int, j: int)
    requires FirstMatchAt(table, name, i) && FirstMatchAt(table, name, j)
    ensures i == j
  {
  }

  /** An entry whose key contains the key of an earlier entry is never the first match. */
  lemma ShadowedEntry(table: seq<(string, string)>, name: string, i: int, j: int)
    requires 0 <= j < i < |table| && Contains(table[i].0, table[j].0)
    ensures !FirstMatchAt(table, name, i)
  {
    if Contains(name, table[i].0) {
      ContainsTransitive(name, table[i].0, table[j].0);
    }
  }

  /** Whether an entry of a front part of the table is the first match does not depend on what follows it. */
  lemma FirstMatchInFront(a: seq<(string, string)>, b: seq<(string, string)>, name: string, i: int)
    requires 0 <= i < |a|
    ensures FirstMatchAt(a + b, name, i) <==> FirstMatchAt(a, name, i)
  {
    assert forall j :: 0 <= j <= i ==> (a + b)[j] == a[j];
  }

  /** The first match in a whole table, when it lies in a back part, is the first match of that part. */
  lemma FirstMatchInBack(a: seq<(string, string)>, b: seq<(string, string)>, name: string, k: int)
    requires 0 <= k < |b| && FirstMatchAt(a + b, name, |a| + k)
    ensures FirstMatchAt(b, name, k)
  {
    forall j | 0 <= j < k ensures !Contains(name, b[j].0) {
      assert (a + b)[|a| + j] == b[j];
    }
    assert (a + b)[|a| + k] == b[k];
  }

  /** An RTX entry that is never the first match within its group is never the first match of the table. */
  lemma NotFirstInRtx(name: string, k: int)
    requires 0 <= k < |RtxNames| && !FirstMatchAt(RtxNames, name, k)
    ensures !FirstMatchAt(GpuNameTable, name, |DataCenterNames| + k)
  {
    var front := DataCenterNames + RtxNames;
    FirstMatchInFront(front, OtherNames, name, |DataCenterNames| + k);
    if FirstMatchAt(front, name, |DataCenterNames| + k) {
      FirstMatchInBack(DataCenterNames, RtxNames, name, k);
    }
  }

  /** `L40S` contains the key `L40` of an earlier data-center entry, so it is never chosen. */
  lemma ShadowedL40S(name: string)
    ensures GpuNameTable[7] == ("L40S", "L40S") && !FirstMatchAt(GpuNameTable, name, 7)
  {
    var front := DataCenterNames + RtxNames;
    assert OccursAt("L40S", "L40", 0);
    ShadowedEntry(DataCenterNames, name, 7, 6);
    FirstMatchInFront(DataCenterNames, RtxNames, name, 7);
    FirstMatchInFront(front, OtherNames, name, 7);
    assert front[7] == DataCenterNames[7];
    assert GpuNameTable[7] == front[7];
  }

  /** An RTX entry whose key contains the key of an earlier RTX entry is never chosen. */
  lemma ShadowedRtx(name: string, k: int, j: int)
    requires 0 <= j < k < |RtxNames| && Contains(RtxNames[k].0, RtxNames[j].0)
    ensures GpuNameTable[|DataCenterNames| + k] == RtxNames[k]
    ensures !FirstMatchAt(GpuNameTable, name, |DataCenterNames| + k)
  {
    ShadowedEntry(RtxNames, name, k, j);
    NotFirstInRtx(name, k);
    var front := DataCenterNames + RtxNames;
    assert front[|DataCenterNames| + k] == RtxNames[k];
    assert GpuNameTable[|DataCenterNames| + k] == front[|DataCenterNames| + k];
  }

  /** `RTX 5000 Ada` contains the key of the earlier `RTX 5000` entry. */
  lemma ShadowedRtx5000(name: string)
    ensures GpuNameTable[20] == ("RTX 5000 Ada", "RTX 5000A") && !FirstMatchAt(GpuNameTable, name, 20)
  {
    assert |DataCenterNames| == 13;
    assert RtxNames[7].0 == "RTX 5000 Ada" && RtxNames[2].0 == "RTX 5000";
    assert OccursAt("RTX 5000 Ada", "RTX 5000", 0);
    ShadowedRtx(name, 7, 2);
  }

  /** `RTX 4000 SFF Ada` contains the key of the earlier `RTX 4000` entry. */
  lemma ShadowedRtx4000(name: string)
    ensures GpuNameTable[21] == ("RTX 4000 SFF Ada", "RTX 4000A") && !FirstMatchAt(GpuNameTable, name, 21)
  {
    assert |DataCenterNames| == 13;
    assert RtxNames[8].0 == "RTX 4000 SFF Ada" && RtxNames[4].0 == "RTX 4000";
    assert OccursAt("RTX 4000 SFF Ada", "RTX 4000", 0);
    ShadowedRtx(name, 8, 4);
  }

  /** `RTX 4500 Ada` contains the key of the earlier `RTX 4500` entry. */
  lemma ShadowedRtx4500(name: string)
    ensures GpuNameTable[23] == ("RTX 4500 Ada", "RTX 4500A") && !FirstMatchAt(GpuNameTable, name, 23)
  {
    assert |DataCenterNames| == 13;
    assert RtxNames[10].0 == "RTX 4500 Ada" && RtxNames[9].0 == "RTX 4500";
    assert OccursAt("RTX 4500 Ada", "RTX 4500", 0);
    ShadowedRtx(name, 10, 9);
  }

  /** Four entries of the table can never be chosen: each key contains the key of an earlier entry. */
  lemma ShadowedTableEntries(name: string)
    ensures GpuNameTable[7] == ("L40S", "L40S") && !FirstMatchAt(GpuNameTable, name, 7)
    ensures GpuNameTable[20] == ("RTX 5000 Ada", "RTX 5000A") && !FirstMatchAt(GpuNameTable, name, 20)
    ensures GpuNameTable[21] == ("RTX 4000 SFF Ada", "RTX 4000A") && !FirstMatchAt(GpuNameTable, name, 21)
    ensures GpuNameTable[23] == ("RTX 4500 Ada", "RTX 4500A") && !FirstMatchAt(GpuNameTable, name, 23)
  {
    ShadowedL40S(name);
    ShadowedRtx5000(name);
    ShadowedRtx4000(name);
    ShadowedRtx4500(name);
  }

  /** The vendor prefixes the fallback removes, at most one of them. */
  const VendorPrefixes: seq<string> := ["NVIDIA ", "Tesla ", "AMD ", "Intel "]

  /** The name without the first of `prefixes` it starts with, stripped again; unchanged when it starts with none. */
  function DropPrefix(name: string, prefixes: seq<string>): (r: string)
    ensures (forall i :: 0 <= i < |prefixes| ==> !StartsWith(name, prefixes[i])) ==> r == name
    ensures prefixes != [] && StartsWith(name, prefixes[0]) ==> r == Strip(name[|prefixes[0]|..])
  {
    if prefixes == [] then name
    else if StartsWith(name, prefixes[0]) then Strip(name[|prefixes[0]|..])
    else DropPrefix(name, prefixes[1..])
  }

  /** The first prefix the name starts with is the one removed, and only it. */
  lemma {:induction false} DropFirstMatch(name: string, prefixes: seq<string>, i: int)
    requires 0 <= i < |prefixes| && StartsWith(name, prefixes[i])
    requires forall j :: 0 <= j < i ==> !StartsWith(name, prefixes[j])
    ensures DropPrefix(name, prefixes) == Strip(name[|prefixes[i]|..])
  {
    if i > 0 {
      assert !StartsWith(name, prefixes[0]);
      var rest := prefixes[1..];
      assert rest[i - 1] == prefixes[i];
      forall j | 0 <= j < i - 1
        ensures !StartsWith(name, rest[j])
      {
        assert rest[j] == prefixes[j + 1];
      }
      DropFirstMatch(name, rest, i - 1);
    }
  }

  /** A name that starts with two prefixes of the list ("NVIDIA Tesla ...") loses only the first. */
  lemma DropOnePrefix(prefixes: seq<string>, model: string)
    requires |prefixes| >= 2 && prefixes[1] != [] && !IsSpace(prefixes[1][0])
    requires model != [] && !IsSpace(model[|model| - 1])
    ensures DropPrefix(prefixes[0] + (prefixes[1] + model), prefixes) == prefixes[1] + model
  {
    PaddedFree(prefixes[1], model);
    DropFirstPrefix(prefixes, prefixes[1] + model);
  }

  /** A name made of the first prefix and a stripped remainder loses exactly that prefix. */
  lemma DropFirstPrefix(prefixes: seq<string>, rest: string)
    requires prefixes != [] && Strip(rest) == rest
    ensures DropPrefix(prefixes[0] + rest, prefixes) == rest
  {
    AppendParts(prefixes[0], rest);
  }

  lemma PaddedFree(word: string, model: string)
    requires word != [] && !IsSpace(word[0])
    requires model != [] && !IsSpace(model[|model| - 1])
    ensures Strip(word + model) == word + model
  {
    var t := word + model;
    assert t[0] == word[0] && t[|t| - 1] == model[|model| - 1];
    StripUnchanged(t);
  }

  /** The brand words the fallback skips before the model. */
  predicate IsBrand(word: string)
  {
    Lower(word) == "geforce" || Lower(word) == "radeon"
  }

  /** The fallback for a name no table key occurs in: at most two words of the name after its vendor prefix and brand. */
  function ShortName(name: string): string
  {
    var parts := Words(DropPrefix(name, VendorPrefixes));
    if |parts| >= 2 && IsBrand(parts[0]) then Join(parts[1..Min(3, |parts|)], " ")
    else if |parts| > 1 then Join(parts[..2], " ")
    else if |parts| == 1 then parts[0]
    else "Unknown"
  }

  /** The short name shown on a compact card. */
  function SimplifyGpuName(raw: string): string
  {
    var name := Strip(raw);
    match FirstMatch(GpuNameTable, name)
    case Some(i) => GpuNameTable[i].1
    case None => ShortName(name)
  }

  /** A name whose first matching key is entry `i` gets that entry's value. */
  lemma SimplifyByTable(raw: string, i: int)
    requires FirstMatchAt(GpuNameTable, Strip(raw), i)
    ensures SimplifyGpuName(raw) == GpuNameTable[i].1
  {
    var r := FirstMatch(GpuNameTable, Strip(raw));
    FirstMatchUnique(GpuNameTable, Strip(raw), r.value, i);
  }

  /** The longest prefix of a separator-free word followed by whitespace is the word. */
  lemma {:induction false} WordOfPrefix(w: string, rest: string)
    requires NoSpace(w) && (rest == [] || IsSpace(rest[0]))
    ensures Word(w + rest) == w
  {
    if w != [] {
      assert (w + rest)[1..] == w[1..] + rest;
      WordOfPrefix(w[1..], rest);
      assert [w[0]] + w[1..] == w;
    } else {
      assert w + rest == rest;
    }
  }

  /** Joining words with single spaces and splitting on whitespace gives the words back. */
  lemma {:induction false} WordsJoin(ws: seq<string>)
    requires forall i :: 0 <= i < |ws| ==> ws[i] != [] && NoSpace(ws[i])
    ensures Words(Join(ws, " ")) == ws
  {
    if |ws| == 1 {
      WordOfPrefix(ws[0], []);
      assert ws[0] + [] == ws[0];
      assert ws[0][|ws[0]|..] == [];
    } else if |ws| > 1 {
      var w, rest := ws[0], " " + Join(ws[1..], " ");
      assert Join(ws, " ") == w + rest;
      WordOfPrefix(w, rest);
      assert (w + rest)[|w|..] == rest;
      assert rest[1..] == Join(ws[1..], " ");
      WordsJoin(ws[1..]);
    }
  }

  /**
   * The fallback yields `Unknown` for a name without words, the one word of a one-word
   * name, the two words after a leading brand, and otherwise the first two words.
   */
  lemma ShortNameWords(name: string)
    ensures var parts := Words(DropPrefix(name, VendorPrefixes));
      && (parts == [] ==> ShortName(name) == "Unknown")
      && (|parts| == 1 ==> ShortName(name) == parts[0])
      && (|parts| >= 2 && IsBrand(parts[0]) ==> Words(ShortName(name)) == parts[1..Min(3, |parts|)])
      && (|parts| >= 2 && !IsBrand(parts[0]) ==> Words(ShortName(name)) == parts[..2])
  {
    var parts := Words(DropPrefix(name, VendorPrefixes));
    if |parts| >= 2 && IsBrand(parts[0]) {
      WordsJoin(parts[1..Min(3, |parts|)]);
    } else if |parts| > 1 {
      WordsJoin(parts[..2]);
      assert parts[0..2] == parts[..2];
    }
  }
}
