/** CliArgsProcessor.php: the command-line options of the daemon, merged with their
    defaults, validated in a fixed order and turned into environment assignments. Writing
    the environment, printing and exiting become the returned value. */
module CliArgs {
  import opened Wrappers
  import opened Text

  /** The options as getopt() reports them; a flag is true when it was given. */
  datatype Given = Given(
    threads: Option<int>,
    telemetryPeriod: Option<int>,
    disableTelemetry: bool,
    debug: bool,
    version: bool,
    help: bool,
    listen: Option<string>)

  /** The options after the defaults are merged in: `listen` is always present. */
  datatype Options = Options(
    threads: Option<int>,
    telemetryPeriod: Option<int>,
    disableTelemetry: bool,
    debug: bool,
    version: bool,
    help: bool,
    listen: string)

  /** What is printed before exiting. */
  datatype Message = HelpText | VersionText | ThreadsOutOfRange | PeriodOutOfRange

  /** Environment assignments, in the order putenv() makes them. */
  type Env = seq<(string, string)>

  /** Either the process exits (with the environment written up to that point), or it
      starts with the merged options and the environment written. */
  datatype Launch =
    | Exit(code: int, message: Message, env: Env)
    | Start(options: Options, env: Env)

  /** The outcome of one validation step. */
  datatype Step = Go(env: Env) | Halt(message: Message, env: Env)

  const DefaultListen: string := "127.0.0.1:9308"
  const AnyAddress: string := "http://0.0.0.0"
  const Loopback: string := "http://127.0.0.1"

  /** array_replace(DEFAULT_OPTS, opts): a given option overrides its default. */
  function Merge(given: Given): (r: Options)
    ensures r.listen == (if given.listen.Some? then given.listen.value else DefaultListen)
    ensures r.threads == given.threads && r.telemetryPeriod == given.telemetryPeriod
    ensures r.disableTelemetry == given.disableTelemetry && r.debug == given.debug
    ensures r.version == given.version && r.help == given.help
  {
    Options(given.threads, given.telemetryPeriod, given.disableTelemetry, given.debug, given.version, given.help,
            match given.listen case Some(l) => l case None => DefaultListen)
  }

  /** The decimal digits of a natural number. */
  function Decimal(n: nat): string {
    if n < 10 then [DigitChar(n)] else Decimal(n / 10) + [DigitChar(n % 10)]
  }

  function DigitChar(d: nat): char
    requires d < 10
  {
    "0123456789"[d]
  }

  /** A threads value outside 1..256 halts with nothing written; a valid one is written
      as THREADS; no value writes nothing. */
  function ParseThreads(opts: Options, env: Env): (r: Step)
    ensures r.Halt? <==> opts.threads.Some? && (opts.threads.value < 1 || opts.threads.value > 256)
    ensures r.Halt? ==> r == Halt(ThreadsOutOfRange, env)
    ensures r.Go? ==> r.env == env + NumberWrite("THREADS", opts.threads)
  {
    match opts.threads
    case None => Go(env)
    case Some(t) =>
      if t < 1 || t > 256 then Halt(ThreadsOutOfRange, env)
      else Go(env + [("THREADS", Decimal(t))])
  }

  /** TELEMETRY is always written: 0 when disable-telemetry was given, 1 otherwise. */
  function ParseDisableTelemetry(opts: Options, env: Env): (r: Env)
    ensures |r| == |env| + 1 && r[..|env|] == env
    ensures r[|env|] == ("TELEMETRY", if opts.disableTelemetry then "0" else "1")
  {
    if opts.disableTelemetry then env + [("TELEMETRY", "0")] else env + [("TELEMETRY", "1")]
  }

  /** DEBUG=1 is written exactly when debug was given. */
  function ParseDebug(opts: Options, env: Env): (r: Env)
    ensures |r| >= |env| && r[..|env|] == env
    ensures opts.debug <==> |r| == |env| + 1
    ensures opts.debug ==> r[|env|] == ("DEBUG", "1")
  {
    if opts.debug then env + [("DEBUG", "1")] else env
  }

  /** A telemetry period outside 5..1800 halts with nothing more written; a valid one is
      written as TELEMETRY_PERIOD; no value writes nothing. */
  function ParseTelemetryPeriod(opts: Options, env: Env): (r: Step)
    ensures r.Halt? <==> opts.telemetryPeriod.Some? && (opts.telemetryPeriod.value < 5 || opts.telemetryPeriod.value > 1800)
    ensures r.Halt? ==> r == Halt(PeriodOutOfRange, env)
    ensures r.Go? ==> r.env == env + NumberWrite("TELEMETRY_PERIOD", opts.telemetryPeriod)
  {
    match opts.telemetryPeriod
    case None => Go(env)
    case Some(p) =>
      if p < 5 || p > 1800 then Halt(PeriodOutOfRange, env)
      else Go(env + [("TELEMETRY_PERIOD", Decimal(p))])
  }

  /** The listen address with a leading http://0.0.0.0 replaced by http://127.0.0.1. */
  function ListenAddress(listen: string): (r: string)
    ensures StartsWith(listen, AnyAddress) ==> r == Loopback + listen[|AnyAddress|..]
    ensures !StartsWith(listen, AnyAddress) ==> r == listen
  {
    if StartsWith(listen, AnyAddress) then Loopback + listen[14..] else listen
  }

  /** parseListen() edits its own copy of the options: only LISTEN sees the rewrite. */
  function ParseListen(opts: Options, env: Env): (r: Env)
    ensures |r| == |env| + 1 && r[..|env|] == env
    ensures r[|env|].0 == "LISTEN" && r[|env|].1 == ListenAddress(opts.listen)
    ensures !StartsWith(opts.listen, AnyAddress) ==> r[|env|].1 == opts.listen
  {
    env + [("LISTEN", ListenAddress(opts.listen))]
  }

  /** run(): help, then version, then threads, disable-telemetry, debug,
      telemetry-period and listen, in that order. */
  function Run(given: Given): (r: Launch)
    ensures given.help ==> r == Exit(0, HelpText, [])
    ensures !given.help && given.version ==> r == Exit(0, VersionText, [])
    ensures r.Start? ==> r.options == Merge(given)
    ensures r.Exit? ==> (r.code == 0 <==> given.help || given.version)
  {
    var opts := Merge(given);
    if opts.help then Exit(0, HelpText, [])
    else if opts.version then Exit(0, VersionText, [])
    else
      match ParseThreads(opts, [])
      case Halt(m, env) => Exit(1, m, env)
      case Go(env1) =>
        var env2 := ParseDebug(opts, ParseDisableTelemetry(opts, env1));
        match ParseTelemetryPeriod(opts, env2)
        case Halt(m, env) => Exit(1, m, env)
        case Go(env3) => Start(opts, ParseListen(opts, env3))
  }

  /** The assignment a step makes for an optional numeric option, if any. */
  function NumberWrite(name: string, value: Option<int>): Env {
    match value
    case None => []
    case Some(n) => if n < 0 then [] else [(name, Decimal(n))]
  }

  /** A threads value outside 1..256 exits with code 1 before anything is written, so
      TELEMETRY is never set; any other value lets the run go past the threads step. */
  lemma ThreadsRange(given: Given)
    requires !given.help && !given.version
    ensures given.threads.Some? && (given.threads.value < 1 || given.threads.value > 256)
      <==> Run(given) == Exit(1, ThreadsOutOfRange, [])
    ensures Run(given).Exit? ==> Run(given).message == ThreadsOutOfRange || Run(given).message == PeriodOutOfRange
  {
  }

  /** With a valid threads value, a telemetry-period outside 5..1800 exits with code 1
      after THREADS, TELEMETRY and DEBUG have been written. */
  lemma PeriodRange(given: Given)
    requires !given.help && !given.version
    requires given.threads.None? || 1 <= given.threads.value <= 256
    ensures given.telemetryPeriod.Some? && (given.telemetryPeriod.value < 5 || given.telemetryPeriod.value > 1800)
      <==> Run(given).Exit?
    ensures Run(given).Exit? ==> Run(given).code == 1 && Run(given).message == PeriodOutOfRange
    ensures Run(given).Exit? ==>
      (Run(given).env ==
         NumberWrite("THREADS", given.threads)
         + [("TELEMETRY", if given.disableTelemetry then "0" else "1")]
         + (if given.debug then [("DEBUG", "1")] else []))
  {
  }

  /** Everything a successful start writes, in order: THREADS exactly when threads was
      given, TELEMETRY 0 or 1 by disable-telemetry, DEBUG=1 exactly when debug was given,
      TELEMETRY_PERIOD exactly when it was given, and LISTEN with the loopback rewrite;
      the returned listen option is the merged one, unrewritten. */
  lemma StartEnvironment(given: Given)
    requires Run(given).Start?
    ensures Run(given).env ==
      NumberWrite("THREADS", given.threads)
      + [("TELEMETRY", if given.disableTelemetry then "0" else "1")]
      + (if given.debug then [("DEBUG", "1")] else [])
      + NumberWrite("TELEMETRY_PERIOD", given.telemetryPeriod)
      + [("LISTEN", ListenAddress(Merge(given).listen))]
    ensures Run(given).options.listen == Merge(given).listen
  {
    var opts := Merge(given);
    var env1 := ParseThreads(opts, []).env;
    var env2 := ParseDebug(opts, ParseDisableTelemetry(opts, env1));
    assert env1 == NumberWrite("THREADS", given.threads);
    assert ParseTelemetryPeriod(opts, env2).env == env2 + NumberWrite("TELEMETRY_PERIOD", given.telemetryPeriod);
  }
}
