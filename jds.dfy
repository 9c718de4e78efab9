/**
 * The job-declarator server entry point `jd_server`: read and parse the
 * configuration, build the RPC URL, spawn the mempool refresher (only for an
 * http URL) and the job declarator, then supervise the status channel until
 * an interrupt or an upstream shutdown.
 *
 * The race between the status channel and the interrupt signal is a script of
 * events, in the order the race resolves them. The file read, the TOML parser
 * and the spawned tasks are outside the model: the file's contents and the
 * parser are parameters, and a spawn is recorded as a task name.
 */
module Jds {
  import opened Common

  /** Where the configuration is read from. */
  const ConfigPath: string := "./config/jd-server-config.toml"

  /** The state carried by a status message on the status channel. */
  datatype State =
    | DownstreamShutdown(error: string)
    | TemplateProviderShutdown(error: string)
    | Healthy(message: string)
    | DownstreamInstanceDropped(downstreamId: nat)

  /** What the supervisor does after a status: keep looping, or break out. */
  datatype Action = KeepRunning | Stop

  /** The supervisor's policy: only an upstream (template provider) shutdown ends the loop. */
  function Classify(s: State): (a: Action)
    ensures a == Stop <==> s.TemplateProviderShutdown?
  {
    match s
    case DownstreamShutdown(_) => KeepRunning
    case TemplateProviderShutdown(_) => Stop
    case Healthy(_) => KeepRunning
    case DownstreamInstanceDropped(_) => KeepRunning
  }

  /** One resolution of the `select!` race. */
  datatype Event =
    | Status(state: State)   // `status_rx.recv()` delivered a status
    | Interrupt(ok: bool)    // `ctrl_c()` completed; `ok` is false when listening for it failed
    | ChannelClosed          // `status_rx.recv()` failed: every sender is gone

  /** How the supervisor loop ends. */
  datatype Ending =
    | Interrupted            // the interrupt arrived: break
    | UpstreamShutdown       // a template provider shutdown: break
    | Halted(code: int)      // listening for the interrupt failed: `std::process::exit(1)`
    | StatusChannelClosed    // the `unwrap` of a failed `recv` panics
    | Waiting                // the script ran out: the loop is still waiting

  /** The ending of a supervisor run and every status it handled, in order. */
  datatype Outcome = Outcome(ending: Ending, handled: seq<State>)

  /** The event does not let the loop go on to the next one. */
  predicate Ends(e: Event)
  {
    !(e.Status? && Classify(e.state) == KeepRunning)
  }

  /** How the loop ends on an event that ends it. */
  function EndingFor(e: Event): Ending
  {
    match e
    case Status(_) => UpstreamShutdown
    case Interrupt(ok) => if ok then Interrupted else Halted(1)
    case ChannelClosed => StatusChannelClosed
  }

  /** The states of the status events of a script. */
  function States(events: seq<Event>): seq<State>
  {
    if events == [] then []
    else (if events[0].Status? then [events[0].state] else []) + States(events[1..])
  }

  /** The supervisor loop run on a script of events. */
  function Supervisor(events: seq<Event>): (o: Outcome)
    decreases |events|
    // every handled status but the last kept the loop running
    ensures forall i :: 0 <= i < |o.handled| - 1 ==> Classify(o.handled[i]) == KeepRunning
    // the loop ends with an upstream shutdown exactly when the last status handled is one
    ensures o.ending == UpstreamShutdown <==>
              o.handled != [] && Classify(o.handled[|o.handled| - 1]) == Stop
    ensures |o.handled| <= |events|
  {
    if events == [] then Outcome(Waiting, [])
    else
      match events[0]
      case Interrupt(ok) => Outcome(if ok then Interrupted else Halted(1), [])
      case ChannelClosed => Outcome(StatusChannelClosed, [])
      case Status(s) =>
        if Classify(s) == Stop then Outcome(UpstreamShutdown, [s])
        else
          var rest := Supervisor(events[1..]);
          Outcome(rest.ending, [s] + rest.handled)
  }

  /** The outcome `o` with the statuses `h` handled before it. */
  function Before(h: seq<State>, o: Outcome): Outcome
  {
    Outcome(o.ending, h + o.handled)
  }

  /** One status that keeps the loop running: the loop goes on with the next event. */
  lemma SupervisorContinues(events: seq<Event>)
    requires events != [] && !Ends(events[0])
    ensures Supervisor(events) == Before([events[0].state], Supervisor(events[1..]))
  {
  }

  lemma BeforeBefore(a: seq<State>, b: seq<State>, o: Outcome)
    ensures Before(a, Before(b, o)) == Before(a + b, o)
  {
    assert a + (b + o.handled) == (a + b) + o.handled;
  }

  /** The supervisor loop of `jd_server`. */
  method Supervise(events: seq<Event>) returns (o: Outcome)
    ensures o == Supervisor(events)
  {
    var i := 0;
    var handled: seq<State> := [];
    while i < |events|
      invariant 0 <= i <= |events|
      invariant Supervisor(events) == Before(handled, Supervisor(events[i..]))
    {
      ghost var pending := events[i..];
      assert pending[0] == events[i] && pending[1..] == events[i + 1..];
      match events[i] {
        case Interrupt(ok) =>
          if !ok {
            return Outcome(Halted(1), handled);
          }
          return Outcome(Interrupted, handled);
        case ChannelClosed =>
          return Outcome(StatusChannelClosed, handled);
        case Status(state) =>
          match state {
            case DownstreamShutdown(_) =>
            case TemplateProviderShutdown(_) =>
              return Outcome(UpstreamShutdown, handled + [state]);
            case Healthy(_) =>
            case DownstreamInstanceDropped(_) =>
          }
          SupervisorContinues(pending);
          BeforeBefore(handled, [state], Supervisor(events[i + 1..]));
          handled := handled + [state];
      }
      i := i + 1;
    }
    assert events[i..] == [];
    return Outcome(Waiting, handled);
  }

  /**
   * The loop stops at the first event that ends it: it handles the statuses before it, plus
   * the upstream shutdown itself when that is the event, and ends as that event says.
   */
  lemma {:induction false} SupervisorStopsAtFirst(events: seq<Event>, k: nat)
    requires k < |events| && Ends(events[k])
    requires forall j :: 0 <= j < k ==> !Ends(events[j])
    ensures Supervisor(events) ==
            Outcome(EndingFor(events[k]), States(events[..k]) + (if events[k].Status? then [events[k].state] else []))
    decreases k
  {
    if k > 0 {
      SupervisorStopsAtFirst(events[1..], k - 1);
      SupervisorContinues(events);
      var front := events[..k];
      assert front[0] == events[0] && front[1..] == events[1..][..k - 1];
      assert States(front) == [events[0].state] + States(front[1..]);
    }
  }

  /** With no event that ends it, the loop handles every status and is still waiting. */
  lemma {:induction false} SupervisorKeepsWaiting(events: seq<Event>)
    requires forall j :: 0 <= j < |events| ==> !Ends(events[j])
    ensures Supervisor(events) == Outcome(Waiting, States(events))
    decreases |events|
  {
    if events != [] {
      SupervisorKeepsWaiting(events[1..]);
    }
  }

  /**
   * A template provider shutdown always ends the loop, after any number of statuses that keep
   * it running, and nothing enqueued after it is processed.
   */
  lemma {:induction false} ShutdownEndsLoop(prefix: seq<Event>, err: string, later: seq<Event>)
    requires forall j :: 0 <= j < |prefix| ==> !Ends(prefix[j])
    ensures var o := Supervisor(prefix + [Status(TemplateProviderShutdown(err))] + later);
            o.ending == UpstreamShutdown &&
            o.handled == States(prefix) + [TemplateProviderShutdown(err)]
  {
    var events := prefix + [Status(TemplateProviderShutdown(err))] + later;
    assert events[..|prefix|] == prefix;
    SupervisorStopsAtFirst(events, |prefix|);
  }

  /**
   * An interrupt ends the loop without consuming another status; when listening for it failed,
   * the process exits with status 1.
   */
  lemma {:induction false} InterruptEndsLoop(prefix: seq<Event>, ok: bool, later: seq<Event>)
    requires forall j :: 0 <= j < |prefix| ==> !Ends(prefix[j])
    ensures var o := Supervisor(prefix + [Interrupt(ok)] + later);
            o.ending == (if ok then Interrupted else Halted(1)) && o.handled == States(prefix)
  {
    var events := prefix + [Interrupt(ok)] + later;
    assert events[..|prefix|] == prefix;
    SupervisorStopsAtFirst(events, |prefix|);
    assert States(prefix) + [] == States(prefix);
  }

  /** Statuses that keep the loop running never change how it ends, however many there are. */
  lemma {:induction false} KeepRunningIrrelevant(prefix: seq<Event>, rest: seq<Event>)
    requires forall j :: 0 <= j < |prefix| ==> !Ends(prefix[j])
    ensures Supervisor(prefix + rest).ending == Supervisor(rest).ending
    decreases |prefix|
  {
    if prefix == [] {
      assert prefix + rest == rest;
    } else {
      assert (prefix + rest)[0] == prefix[0];
      assert (prefix + rest)[1..] == prefix[1..] + rest;
      KeepRunningIrrelevant(prefix[1..], rest);
      SupervisorContinues(prefix + rest);
    }
  }

  /** The decimal digit character of `d`. */
  function DigitChar(d: nat): (ch: char)
    requires d < 10
    ensures '0' <= ch <= '9'
  {
    (('0' as int) + d) as char
  }

  /** The decimal rendering of `n`, as Rust's `to_string` on an unsigned integer. */
  function Decimal(n: nat): (s: string)
    ensures |s| >= 1 && forall i :: 0 <= i < |s| ==> '0' <= s[i] <= '9'
    // no leading zero: only zero itself starts with '0', and it renders as "0"
    ensures s[0] == '0' ==> n == 0 && s == "0"
  {
    if n < 10 then [DigitChar(n)] else Decimal(n / 10) + [DigitChar(n % 10)]
  }

  /** The number a string of decimal digits stands for. */
  function DecimalValue(s: string): nat
    requires forall i :: 0 <= i < |s| ==> '0' <= s[i] <= '9'
  {
    if s == [] then 0 else 10 * DecimalValue(s[..|s| - 1]) + (s[|s| - 1] as int - '0' as int)
  }

  /** Reading the decimal rendering back gives the number. */
  lemma {:induction false} DecimalRoundTrip(n: nat)
    ensures DecimalValue(Decimal(n)) == n
  {
    if n >= 10 {
      DecimalRoundTrip(n / 10);
      var s := Decimal(n);
      assert s[..|s| - 1] == Decimal(n / 10);
    }
  }

  /** The RPC URL: `core_rpc_url`, a colon, and the decimal port. */
  function RpcUrl(url: string, port: nat): (r: string)
    ensures |r| > |url| + 1 && r[..|url|] == url && r[|url|] == ':'
    ensures forall i :: |url| < i < |r| ==> '0' <= r[i] <= '9'
    ensures DecimalValue(r[|url| + 1..]) == port
    // the port part is exactly the port's decimal rendering: no leading zero, no sign
    ensures r[|url| + 1..] == Decimal(port)
  {
    DecimalRoundTrip(port);
    assert (url + ":" + Decimal(port))[|url| + 1..] == Decimal(port);
    url + ":" + Decimal(port)
  }

  /** `pat` occurs in `s` at position `i`. */
  ghost predicate OccursAt(s: string, pat: string, i: int)
  {
    0 <= i && i + |pat| <= |s| && s[i..i + |pat|] == pat
  }

  /** Rust's `str::contains`: `pat` occurs somewhere in `s`. */
  function Contains(s: string, pat: string): (b: bool)
    ensures b <==> exists i :: OccursAt(s, pat, i)
    decreases |s|
  {
    if |s| < |pat| then false
    else if s[..|pat|] == pat then (assert OccursAt(s, pat, 0); true)
    else
      var b := Contains(s[1..], pat);
      assert b ==> exists i :: OccursAt(s, pat, i) by {
        if b {
          var i :| OccursAt(s[1..], pat, i);
          assert s[i + 1..i + 1 + |pat|] == s[1..][i..i + |pat|];
          assert OccursAt(s, pat, i + 1);
        }
      }
      assert (exists i :: OccursAt(s, pat, i)) ==> b by {
        if i :| OccursAt(s, pat, i) {
          assert i != 0;
          assert s[1..][i - 1..i - 1 + |pat|] == s[i..i + |pat|];
          assert OccursAt(s[1..], pat, i - 1);
        }
      }
      b
  }

  /** Whether the mempool refresher is spawned for this RPC URL. */
  function SpawnsRefresher(url: string): bool
  {
    Contains(url, "http")
  }

  /** An occurrence in the RPC URL ends inside `core_rpc_url`: the port part holds no "p". */
  lemma OccurrenceInUrl(url: string, port: nat, i: int)
    requires OccursAt(RpcUrl(url, port), "http", i)
    ensures OccursAt(url, "http", i)
  {
    var r := RpcUrl(url, port);
    var w := r[i..i + 4];
    assert w == "http";
    assert w[3] == 'p';
    assert r[i + 3] == 'p';
    assert i + 4 <= |url|;
    assert url[i..i + 4] == r[..|url|][i..i + 4] == w;
  }

  /** An occurrence in `core_rpc_url` is one in the RPC URL. */
  lemma OccurrenceInRpcUrl(url: string, port: nat, i: int)
    requires OccursAt(url, "http", i)
    ensures OccursAt(RpcUrl(url, port), "http", i)
  {
    var r := RpcUrl(url, port);
    assert r[i..i + 4] == r[..|url|][i..i + 4] == url[i..i + 4];
  }

  /** The port cannot contribute to the "http" test: it is decided by `core_rpc_url` alone. */
  lemma RefresherDecidedByUrl(url: string, port: nat)
    ensures SpawnsRefresher(RpcUrl(url, port)) <==> Contains(url, "http")
  {
    if i :| OccursAt(url, "http", i) {
      OccurrenceInRpcUrl(url, port, i);
    }
    if i :| OccursAt(RpcUrl(url, port), "http", i) {
      OccurrenceInUrl(url, port, i);
    }
  }

  /** The fields of the configuration that `jd_server` reads. */
  datatype Configuration = Configuration(
    coreRpcUrl: string, coreRpcPort: nat, coreRpcUser: string, coreRpcPass: string)

  /** The arguments `JDsMempool::new` is built from. */
  datatype Mempool = Mempool(url: string, user: string, password: string)

  /** The background tasks `jd_server` spawns. */
  datatype Task = MempoolRefresher | JobDeclarator

  /** What `jd_server` does. */
  datatype Launch =
    | ConfigReadFailed
    | ConfigParseFailed
    | Launched(mempool: Mempool, spawned: seq<Task>, supervisor: Outcome)

  /**
   * `jd_server`: `readFile` is `read_to_string` (`None` when the read fails), applied to
   * `ConfigPath`; `parse` is the TOML parser, `events` the script of the supervisor's race.
   */
  method JdServer(readFile: string -> Option<string>, parse: string -> Option<Configuration>, events: seq<Event>)
    returns (l: Launch)
    // configuration failures return before anything is spawned or supervised
    ensures readFile(ConfigPath).None? ==> l == ConfigReadFailed
    ensures readFile(ConfigPath).Some? && parse(readFile(ConfigPath).value).None? ==> l == ConfigParseFailed
    ensures readFile(ConfigPath).Some? && parse(readFile(ConfigPath).value).Some? ==>
              var cfg := parse(readFile(ConfigPath).value).value;
              l.Launched? &&
              l.mempool == Mempool(RpcUrl(cfg.coreRpcUrl, cfg.coreRpcPort), cfg.coreRpcUser, cfg.coreRpcPass) &&
              // the refresher, when spawned, is spawned first, then the job declarator
              l.spawned == (if Contains(cfg.coreRpcUrl, "http") then [MempoolRefresher] else []) + [JobDeclarator] &&
              l.supervisor == Supervisor(events)
  {
    match readFile(ConfigPath)
    case None =>
      return ConfigReadFailed;
    case Some(text) =>
      match parse(text)
      case None =>
        return ConfigParseFailed;
      case Some(config) =>
        var url := RpcUrl(config.coreRpcUrl, config.coreRpcPort);
        var mempool := Mempool(url, config.coreRpcUser, config.coreRpcPass);
        var spawned: seq<Task> := [];
        if SpawnsRefresher(url) {
          spawned := spawned + [MempoolRefresher];
        }
        spawned := spawned + [JobDeclarator];
        RefresherDecidedByUrl(config.coreRpcUrl, config.coreRpcPort);
        var outcome := Supervise(events);
        return Launched(mempool, spawned, outcome);
  }
}
