/**
 * The executor: one remote-shell session per instance, opened lazily by the
 * first command or file transfer and reused until `close`.
 *
 * The transport is not modelled. A `Network` decides, for every call the
 * executor makes on it, whether the call succeeds, and what a command run
 * on the remote host prints and returns. The executor records the calls it
 * makes in the ghost trace `calls`.
 */
module Executor {
  import opened Wrappers
  import Text

  const DefaultPort: int := 22
  const DefaultTimeout: int := 30

  /** A keyword argument passed to the transport's connect. */
  datatype Arg = Str(s: string) | Num(n: int)

  /** The calls the executor makes on the transport. */
  datatype Call =
    | SshConnect(kwargs: map<string, Arg>)
    | ExecCommand(command: string)
    | OpenSftp
    | SftpPut(localPath: string, remotePath: string)
    | SftpChmod(remotePath: string, mode: int)
    | SftpGet(remotePath: string, localPath: string)
    | SftpClose
    | SshClose

  /** What a remote command produced: its two output streams, decoded, and its exit status. */
  datatype Output = Output(stdout: string, stderr: string, status: int)

  /** The transport as an oracle: which calls succeed, and what each command outputs. */
  datatype Network = Network(accepts: Call -> bool, output: string -> Output)

  /**
   * The client object the executor holds. `established` records whether the
   * connect on it succeeded: the executor keeps the client either way.
   */
  datatype Session = Session(established: bool)

  /** The kinds of `ExecutionError`, by the message prefix the source raises with. */
  datatype ExecutionError = ConnectionFailed | ExecutionFailed | UploadFailed | DownloadFailed

  /** The value `execute` returns: the dictionary with keys stdout, stderr and status. */
  datatype CommandResult = CommandResult(stdout: string, stderr: string, status: int)

  /** The connection settings the executor is constructed with. */
  datatype Settings = Settings(
    hostname: string,
    username: string,
    password: Option<string>,
    keyFilename: Option<string>,
    port: int,
    timeout: int)

  /** Python truthiness of an optional string: present and non-empty. */
  predicate Truthy(s: Option<string>) {
    s.Some? && s.value != ""
  }

  // ---------------------------------------------------------------------------
  // Connect arguments
  // ---------------------------------------------------------------------------

  /**
   * The keyword arguments of the connect call: hostname, username, port and
   * timeout always; a password only when it is truthy, a key file only when
   * it is truthy, both when both are. No precedence is chosen between them.
   */
  function ConnectArgs(cfg: Settings): (kw: map<string, Arg>)
    ensures kw.Keys == {"hostname", "username", "port", "timeout"}
      + (if Truthy(cfg.password) then {"password"} else {})
      + (if Truthy(cfg.keyFilename) then {"key_filename"} else {})
    ensures kw["hostname"] == Str(cfg.hostname) && kw["username"] == Str(cfg.username)
    ensures kw["port"] == Num(cfg.port) && kw["timeout"] == Num(cfg.timeout)
    ensures "password" in kw ==> kw["password"] == Str(cfg.password.value)
    ensures "key_filename" in kw ==> kw["key_filename"] == Str(cfg.keyFilename.value)
  {
    var base := map["hostname" := Str(cfg.hostname), "username" := Str(cfg.username),
                    "port" := Num(cfg.port), "timeout" := Num(cfg.timeout)];
    var withPassword := if Truthy(cfg.password) then base["password" := Str(cfg.password.value)] else base;
    if Truthy(cfg.keyFilename) then withPassword["key_filename" := Str(cfg.keyFilename.value)] else withPassword
  }

  // ---------------------------------------------------------------------------
  // The command string
  // ---------------------------------------------------------------------------

  /** `f"{k}={v}"` for each entry of the environment, in iteration order. */
  function Assignments(env: seq<(string, string)>): (r: seq<string>)
    ensures |r| == |env|
  {
    seq(|env|, i requires 0 <= i < |env| => env[i].0 + "=" + env[i].1)
  }

  /**
   * The space-joined environment assignments. It is empty exactly when the
   * environment has no entries, since every assignment contains `=`.
   */
  function EnvString(env: seq<(string, string)>): (r: string)
    ensures r == "" <==> env == []
    ensures |env| == 1 ==> r == env[0].0 + "=" + env[0].1
  {
    var parts := Assignments(env);
    Text.JoinEmpty(" ", parts);
    assert |parts| == 1 ==> parts[0][|env[0].0|] == '=';
    Text.Join(" ", parts)
  }

  /** A further variable comes last in the environment string, after one space. */
  lemma EnvStringSnoc(env: seq<(string, string)>, k: string, v: string)
    requires env != []
    ensures EnvString(env + [(k, v)]) == EnvString(env) + " " + k + "=" + v
  {
    assert Assignments(env + [(k, v)]) == Assignments(env) + [k + "=" + v];
    Text.JoinSnoc(" ", Assignments(env), k + "=" + v);
  }

  /** The environment prefix: the assignments and one space, or nothing for no variables. */
  function EnvPrefix(env: Option<seq<(string, string)>>): string {
    if env.None? || env.value == [] then "" else EnvString(env.value) + " "
  }

  /**
   * The command `execute` runs: `sudo ` is put in front when asked for, then
   * the environment assignments in front of that, so the result reads
   * env prefix, `sudo `, command. `None` and an empty environment add nothing.
   */
  function FinalCommand(command: string, sudo: bool, env: Option<seq<(string, string)>>): (r: string)
    ensures r == EnvPrefix(env) + (if sudo then "sudo " else "") + command
    ensures r[|r| - |command|..] == command
    ensures !sudo && (env.None? || env.value == []) ==> r == command
  {
    var withSudo := if sudo then "sudo " + command else command;
    var envString := EnvString(env.GetOr([]));
    if envString != "" then envString + " " + withSudo else withSudo
  }

  /** The result of a command: both streams stripped, the exit status passed through unchanged. */
  function Shape(out: Output): (r: CommandResult)
    ensures r.status == out.status
    ensures Text.Trimmed(r.stdout) && Text.Trimmed(r.stderr)
    ensures r.stdout == Text.Strip(out.stdout) && r.stderr == Text.Strip(out.stderr)
  {
    CommandResult(Text.Strip(out.stdout), Text.Strip(out.stderr), out.status)
  }

  /** Shaping a result that is already shaped changes nothing. */
  lemma ShapeIdempotent(out: Output)
    ensures var r := Shape(out); Shape(Output(r.stdout, r.stderr, r.status)) == r
  {
    Text.StripIdempotent(out.stdout);
    Text.StripIdempotent(out.stderr);
  }

  // ---------------------------------------------------------------------------
  // Calls on the transport
  // ---------------------------------------------------------------------------

  /** Every call of `plan` succeeds. */
  predicate Succeeds(net: Network, plan: seq<Call>) {
    forall i :: 0 <= i < |plan| ==> net.accepts(plan[i])
  }

  /** The calls made when `plan` is run until a call fails; the failing call is made, and raises. */
  function Attempt(net: Network, plan: seq<Call>): seq<Call>
    decreases |plan|
  {
    if plan == [] then []
    else if !net.accepts(plan[0]) then [plan[0]]
    else [plan[0]] + Attempt(net, plan[1..])
  }

  /**
   * What `Attempt` makes is a prefix of the plan: all of it when every call
   * succeeds, otherwise the calls up to and including the first one that
   * fails.
   */
  lemma {:induction false} AttemptPrefix(net: Network, plan: seq<Call>)
    ensures var made := Attempt(net, plan);
      && |made| <= |plan| && made == plan[..|made|]
      && (Succeeds(net, plan) ==> made == plan)
      && (!Succeeds(net, plan) ==>
            && made != []
            && !net.accepts(made[|made| - 1])
            && Succeeds(net, made[..|made| - 1]))
    decreases |plan|
  {
    if plan == [] {
    } else if !net.accepts(plan[0]) {
      var made := Attempt(net, plan);
      assert made == [plan[0]] == plan[..1];
      assert made[..0] == [] && Succeeds(net, made[..0]);
      assert !Succeeds(net, plan);
    } else {
      AttemptPrefix(net, plan[1..]);
      var made := Attempt(net, plan);
      var tail := Attempt(net, plan[1..]);
      assert made == [plan[0]] + tail;
      assert plan[..|made|] == [plan[0]] + plan[1..][..|tail|];
      if Succeeds(net, plan[1..]) {
        forall i | 0 <= i < |plan| ensures net.accepts(plan[i]) {
          if i > 0 {
            assert plan[i] == plan[1..][i - 1];
          }
        }
        assert plan == [plan[0]] + plan[1..];
      } else {
        assert !net.accepts(plan[1..][|tail| - 1]);
        assert made[..|made| - 1] == [plan[0]] + tail[..|tail| - 1];
        forall i | 0 <= i < |made| - 1 ensures net.accepts(made[i]) {
          if i > 0 {
            assert made[i] == tail[..|tail| - 1][i - 1];
          }
        }
        assert !net.accepts(plan[|tail|]);
      }
    }
  }

  /** The calls of `upload_file`: chmod exactly when a mode is given, mode 0 included. */
  function UploadPlan(localPath: string, remotePath: string, mode: Option<int>): (plan: seq<Call>)
    ensures |plan| == (if mode.Some? then 4 else 3)
    ensures plan[0] == OpenSftp && plan[1] == SftpPut(localPath, remotePath) && plan[|plan| - 1] == SftpClose
    ensures mode.Some? ==> SftpChmod(remotePath, mode.value) in plan
    ensures (exists i :: 0 <= i < |plan| && plan[i].SftpChmod?) <==> mode.Some?
  {
    [OpenSftp, SftpPut(localPath, remotePath)]
      + (if mode.Some? then [SftpChmod(remotePath, mode.value)] else [])
      + [SftpClose]
  }

  /** The calls of `download_file`. */
  function DownloadPlan(remotePath: string, localPath: string): seq<Call> {
    [OpenSftp, SftpGet(remotePath, localPath), SftpClose]
  }

  // ---------------------------------------------------------------------------
  // The session state machine
  // ---------------------------------------------------------------------------

  /** One operation of the executor: the client afterwards, the calls made, and what it returns or raises. */
  datatype Step<T> = Step(client: Option<Session>, calls: seq<Call>, result: Result<T, ExecutionError>)

  /**
   * `connect`: a new client is stored before the connect call is made, so
   * the executor holds a client even when the call fails and
   * ConnectionFailed is raised. A client held before is dropped, not closed.
   */
  function ConnectStep(cfg: Settings, net: Network): (s: Step<()>)
    ensures s.client.Some?
    ensures s.calls == [SshConnect(ConnectArgs(cfg))]
    ensures s.result.Ok? <==> net.accepts(SshConnect(ConnectArgs(cfg)))
    ensures s.result.Ok? ==> s.client == Some(Session(true))
    ensures s.result.Err? ==> s.result.error == ConnectionFailed && s.client == Some(Session(false))
  {
    var call := SshConnect(ConnectArgs(cfg));
    if net.accepts(call) then Step(Some(Session(true)), [call], Ok(()))
    else Step(Some(Session(false)), [call], Err(ConnectionFailed))
  }

  /**
   * The transport as seen through the held client: a client whose connect
   * failed never opened a session, so every call made on it raises.
   */
  function Link(net: Network, session: Session): (link: Network)
    ensures session.established ==> link == net
    ensures !session.established ==> forall c :: !link.accepts(c)
    ensures link.output == net.output
  {
    if session.established then net else Network((c: Call) => false, net.output)
  }

  /** The session check of `execute`, `upload_file` and `download_file`: connect when no client is held, otherwise keep it. */
  function EnsureSession(cfg: Settings, client: Option<Session>, net: Network): (s: Step<()>)
    ensures s.client.Some?
  {
    if client.None? then ConnectStep(cfg, net) else Step(client, [], Ok(()))
  }

  /** `execute`: the session check, then the command run on the held client and its shaped result. */
  function ExecuteStep(cfg: Settings, client: Option<Session>, net: Network,
                       command: string, sudo: bool, env: Option<seq<(string, string)>>): Step<CommandResult>
  {
    RunStep(EnsureSession(cfg, client, net), net, command, sudo, env)
  }

  /** The part of `execute` after the session check `c`: the command run on the held client. */
  function RunStep(c: Step<()>, net: Network, command: string, sudo: bool, env: Option<seq<(string, string)>>): Step<CommandResult>
    requires c.client.Some?
  {
    if c.result.Err? then Step(c.client, c.calls, Err(c.result.error))
    else
      var link := Link(net, c.client.value);
      var call := ExecCommand(FinalCommand(command, sudo, env));
      if link.accepts(call) then Step(c.client, c.calls + [call], Ok(Shape(link.output(call.command))))
      else Step(c.client, c.calls + [call], Err(ExecutionFailed))
  }

  /** `upload_file`: the session check, then the upload plan attempted on the held client until a call raises. */
  function UploadStep(cfg: Settings, client: Option<Session>, net: Network,
                      localPath: string, remotePath: string, mode: Option<int>): Step<()>
  {
    var c := EnsureSession(cfg, client, net);
    if c.result.Err? then c
    else
      var link := Link(net, c.client.value);
      var plan := UploadPlan(localPath, remotePath, mode);
      Step(c.client, c.calls + Attempt(link, plan), if Succeeds(link, plan) then Ok(()) else Err(UploadFailed))
  }

  /** `download_file`: the session check, then the download plan attempted on the held client until a call raises. */
  function DownloadStep(cfg: Settings, client: Option<Session>, net: Network,
                        remotePath: string, localPath: string): Step<()>
  {
    var c := EnsureSession(cfg, client, net);
    if c.result.Err? then c
    else
      var link := Link(net, c.client.value);
      var plan := DownloadPlan(remotePath, localPath);
      Step(c.client, c.calls + Attempt(link, plan), if Succeeds(link, plan) then Ok(()) else Err(DownloadFailed))
  }

  /** `close`: drop the client, closing it first if there is one. */
  function CloseStep(client: Option<Session>): (s: Step<()>)
    ensures s.client.None? && s.result.Ok?
    ensures s.calls == [] <==> client.None?
    ensures client.Some? ==> s.calls == [SshClose]
  {
    if client.Some? then Step(None, [SshClose], Ok(())) else Step(None, [], Ok(()))
  }

  /** How many connect calls a trace holds. */
  function Connects(calls: seq<Call>): nat {
    if calls == [] then 0 else (if calls[0].SshConnect? then 1 else 0) + Connects(calls[1..])
  }

  lemma {:induction false} ConnectsAppend(a: seq<Call>, b: seq<Call>)
    ensures Connects(a + b) == Connects(a) + Connects(b)
    decreases |a|
  {
    if a == [] {
      assert a + b == b;
    } else {
      assert (a + b)[1..] == a[1..] + b;
      ConnectsAppend(a[1..], b);
    }
  }

  lemma {:induction false} NoConnectInTransfer(net: Network, plan: seq<Call>)
    requires forall i :: 0 <= i < |plan| ==> !plan[i].SshConnect?
    ensures Connects(Attempt(net, plan)) == 0
    decreases |plan|
  {
    if plan != [] && net.accepts(plan[0]) {
      forall i | 0 <= i < |plan[1..]| ensures !plan[1..][i].SshConnect? {
        assert plan[1..][i] == plan[i + 1];
      }
      NoConnectInTransfer(net, plan[1..]);
      assert ([plan[0]] + Attempt(net, plan[1..]))[1..] == Attempt(net, plan[1..]);
    }
  }

  /**
   * What an operation found holding `client` did about the session: exactly
   * one connect call, as its first call, when there was no client, and none
   * when there was one; a client is left behind either way, and one that was
   * found is reused.
   */
  predicate ConnectsLazily<T>(cfg: Settings, client: Option<Session>, s: Step<T>) {
    && Connects(s.calls) == (if client.None? then 1 else 0)
    && (client.None? ==> s.calls != [] && s.calls[0] == SshConnect(ConnectArgs(cfg)))
    && s.client.Some?
    && (client.Some? ==> s.client == client)
  }

  /** Getting a session connects lazily. */
  lemma EnsureSessionLazily(cfg: Settings, client: Option<Session>, net: Network)
    ensures ConnectsLazily(cfg, client, EnsureSession(cfg, client, net))
  {
    var c := EnsureSession(cfg, client, net);
    if client.None? {
      assert c.calls == [SshConnect(ConnectArgs(cfg))];
      assert c.calls[1..] == [];
    }
  }

  /** Calls other than a connect, made after the session is at hand, keep it lazy. */
  lemma ExtendLazily<T, U>(cfg: Settings, client: Option<Session>, s: Step<T>, extra: seq<Call>, result: Result<U, ExecutionError>)
    requires ConnectsLazily(cfg, client, s) && Connects(extra) == 0
    ensures ConnectsLazily(cfg, client, Step(s.client, s.calls + extra, result))
  {
    ConnectsAppend(s.calls, extra);
    if client.None? {
      assert (s.calls + extra)[0] == s.calls[0];
    }
  }

  /** `execute` connects lazily. */
  lemma ExecuteLazily(cfg: Settings, client: Option<Session>, net: Network,
                      command: string, sudo: bool, env: Option<seq<(string, string)>>)
    ensures ConnectsLazily(cfg, client, ExecuteStep(cfg, client, net, command, sudo, env))
  {
    var c := EnsureSession(cfg, client, net);
    EnsureSessionLazily(cfg, client, net);
    var s := ExecuteStep(cfg, client, net, command, sudo, env);
    if c.result.Ok? {
      var call := ExecCommand(FinalCommand(command, sudo, env));
      assert Connects([call]) == 0 by {
        assert [call][1..] == [];
      }
      ExtendLazily(cfg, client, c, [call], s.result);
    } else {
      assert s.calls == c.calls && s.client == c.client;
    }
  }

  /** `upload_file` connects lazily. */
  lemma UploadLazily(cfg: Settings, client: Option<Session>, net: Network,
                     localPath: string, remotePath: string, mode: Option<int>)
    ensures ConnectsLazily(cfg, client, UploadStep(cfg, client, net, localPath, remotePath, mode))
  {
    var c := EnsureSession(cfg, client, net);
    EnsureSessionLazily(cfg, client, net);
    if c.result.Ok? {
      var link := Link(net, c.client.value);
      var plan := UploadPlan(localPath, remotePath, mode);
      NoConnectInTransfer(link, plan);
      ExtendLazily(cfg, client, c, Attempt(link, plan), UploadStep(cfg, client, net, localPath, remotePath, mode).result);
    }
  }

  /** `download_file` connects lazily. */
  lemma DownloadLazily(cfg: Settings, client: Option<Session>, net: Network,
                       remotePath: string, localPath: string)
    ensures ConnectsLazily(cfg, client, DownloadStep(cfg, client, net, remotePath, localPath))
  {
    var c := EnsureSession(cfg, client, net);
    EnsureSessionLazily(cfg, client, net);
    if c.result.Ok? {
      var link := Link(net, c.client.value);
      var plan := DownloadPlan(remotePath, localPath);
      NoConnectInTransfer(link, plan);
      ExtendLazily(cfg, client, c, Attempt(link, plan), DownloadStep(cfg, client, net, remotePath, localPath).result);
    }
  }

  /**
   * Whether an operation finding `client` has an open session to work with:
   * the held client's, or the one its own connect opens.
   */
  predicate Open(cfg: Settings, client: Option<Session>, net: Network) {
    if client.Some? then client.value.established else net.accepts(SshConnect(ConnectArgs(cfg)))
  }

  /** The operation found no client and its own connect failed. */
  predicate ConnectFails(cfg: Settings, client: Option<Session>, net: Network) {
    client.None? && !net.accepts(SshConnect(ConnectArgs(cfg)))
  }

  /**
   * `execute` returns a result exactly when a session is open and the
   * command runs; the result is the shaped output whatever the exit status,
   * so a non-zero status is not an error. A failing connect raises
   * ConnectionFailed without running anything; a failing run, or a run on a
   * client whose earlier connect failed, raises ExecutionFailed.
   */
  lemma ExecuteOutcome(cfg: Settings, client: Option<Session>, net: Network,
                       command: string, sudo: bool, env: Option<seq<(string, string)>>)
    ensures var s := ExecuteStep(cfg, client, net, command, sudo, env);
      var run := ExecCommand(FinalCommand(command, sudo, env));
      && (s.result.Ok? <==> Open(cfg, client, net) && net.accepts(run))
      && (s.result.Ok? ==> s.result.value == Shape(net.output(run.command))
                           && s.result.value.status == net.output(run.command).status)
      && (ConnectFails(cfg, client, net) ==> s.result == Err(ConnectionFailed) && run !in s.calls)
      && (!ConnectFails(cfg, client, net) && s.result.Err? ==> s.result == Err(ExecutionFailed))
  {
    var c := EnsureSession(cfg, client, net);
    var run := ExecCommand(FinalCommand(command, sudo, env));
    if c.result.Ok? {
      var link := Link(net, c.client.value);
      assert link.accepts(run) <==> Open(cfg, client, net) && net.accepts(run)
        by { assert c.client.value.established <==> Open(cfg, client, net); }
    }
  }

  /**
   * `upload_file` succeeds exactly when a session is open and every call of
   * its plan succeeds. It changes the mode exactly when one is given: never
   * without one, and always once the put has gone through, mode 0 included.
   */
  lemma UploadOutcome(cfg: Settings, client: Option<Session>, net: Network,
                      localPath: string, remotePath: string, mode: Option<int>)
    ensures var s := UploadStep(cfg, client, net, localPath, remotePath, mode);
      var open := Open(cfg, client, net);
      && (s.result.Ok? <==> open && Succeeds(net, UploadPlan(localPath, remotePath, mode)))
      && (ConnectFails(cfg, client, net) ==> s.result == Err(ConnectionFailed))
      && (!ConnectFails(cfg, client, net) && s.result.Err? ==> s.result == Err(UploadFailed))
      && (mode.None? ==> forall i :: 0 <= i < |s.calls| ==> !s.calls[i].SftpChmod?)
      && (var putDone := open && net.accepts(OpenSftp) && net.accepts(SftpPut(localPath, remotePath));
          mode.Some? && putDone ==> SftpChmod(remotePath, mode.value) in s.calls)
  {
    var s := UploadStep(cfg, client, net, localPath, remotePath, mode);
    var c := EnsureSession(cfg, client, net);
    var plan := UploadPlan(localPath, remotePath, mode);
    if c.result.Ok? {
      var link := Link(net, c.client.value);
      assert c.client.value.established <==> Open(cfg, client, net);
      var made := Attempt(link, plan);
      AttemptPrefix(link, plan);
      assert s.calls == c.calls + made;
      if !Open(cfg, client, net) {
        assert !link.accepts(plan[0]);
      }
      if mode.None? {
        forall i | 0 <= i < |s.calls| ensures !s.calls[i].SftpChmod? {
          if i >= |c.calls| {
            assert s.calls[i] == plan[i - |c.calls|];
          }
        }
      } else if Open(cfg, client, net) && net.accepts(OpenSftp) && net.accepts(SftpPut(localPath, remotePath)) {
        assert made == [plan[0], plan[1]] + Attempt(net, plan[2..]);
        assert Attempt(net, plan[2..])[0] == SftpChmod(remotePath, mode.value);
        assert s.calls[|c.calls| + 2] == SftpChmod(remotePath, mode.value);
      }
    }
  }

  /** `download_file` succeeds exactly when a session is open and its open, get and close all succeed. */
  lemma DownloadOutcome(cfg: Settings, client: Option<Session>, net: Network,
                        remotePath: string, localPath: string)
    ensures var s := DownloadStep(cfg, client, net, remotePath, localPath);
      && (s.result.Ok? <==> Open(cfg, client, net) && net.accepts(OpenSftp)
                              && net.accepts(SftpGet(remotePath, localPath)) && net.accepts(SftpClose))
      && (ConnectFails(cfg, client, net) ==> s.result == Err(ConnectionFailed))
      && (!ConnectFails(cfg, client, net) && s.result.Err? ==> s.result == Err(DownloadFailed))
  {
    var c := EnsureSession(cfg, client, net);
    var plan := DownloadPlan(remotePath, localPath);
    if c.result.Ok? {
      var link := Link(net, c.client.value);
      assert c.client.value.established <==> Open(cfg, client, net);
      assert Succeeds(link, plan) <==> link.accepts(plan[0]) && link.accepts(plan[1]) && link.accepts(plan[2]);
    }
  }

  /**
   * Because the client is stored before the connect call, a failed connect
   * is not retried: the next operation finds a client and makes no connect
   * call, whatever the transport now would do, and fails on that client.
   */
  lemma FailedConnectIsNotRetried(cfg: Settings, net: Network, later: Network,
                                  command: string, sudo: bool, env: Option<seq<(string, string)>>)
    requires !net.accepts(SshConnect(ConnectArgs(cfg)))
    ensures var first := ExecuteStep(cfg, None, net, command, sudo, env);
      var second := ExecuteStep(cfg, first.client, later, command, sudo, env);
      && first.result == Err(ConnectionFailed)
      && first.client == Some(Session(false))
      && Connects(second.calls) == 0
      && second.client == first.client
      && second.result == Err(ExecutionFailed)
  {
    var first := ExecuteStep(cfg, None, net, command, sudo, env);
    ExecuteLazily(cfg, first.client, later, command, sudo, env);
  }

  /** `close` always ends disconnected, and a second `close` does nothing. */
  lemma CloseIdempotent(client: Option<Session>)
    ensures CloseStep(CloseStep(client).client) == Step(None, [], Ok(()))
  {
  }

  /**
   * After an explicit successful `connect`, `execute` reuses the live
   * session: it makes no connect call and runs the command on it.
   */
  lemma ConnectThenExecute(cfg: Settings, net: Network, later: Network,
                           command: string, sudo: bool, env: Option<seq<(string, string)>>)
    requires net.accepts(SshConnect(ConnectArgs(cfg)))
    ensures var s := ExecuteStep(cfg, ConnectStep(cfg, net).client, later, command, sudo, env);
      var run := ExecCommand(FinalCommand(command, sudo, env));
      && Connects(s.calls) == 0
      && (s.result.Ok? <==> later.accepts(run))
  {
    ExecuteLazily(cfg, ConnectStep(cfg, net).client, later, command, sudo, env);
    ExecuteOutcome(cfg, ConnectStep(cfg, net).client, later, command, sudo, env);
  }

  /**
   * `close` is what lets the executor connect again: after it, even a dead
   * client is gone, and the next `execute` opens with one connect call.
   */
  lemma CloseThenReconnects(cfg: Settings, client: Option<Session>, net: Network,
                            command: string, sudo: bool, env: Option<seq<(string, string)>>)
    ensures var s := ExecuteStep(cfg, CloseStep(client).client, net, command, sudo, env);
      Connects(s.calls) == 1 && s.calls[0] == SshConnect(ConnectArgs(cfg))
  {
    ExecuteLazily(cfg, None, net, command, sudo, env);
  }

  /** A transport that accepts everything and prints `ok` with status 0 makes `execute` return ("ok", "", 0). */
  lemma EchoExample(cfg: Settings)
    ensures var net := Network((c: Call) => true, (cmd: string) => Output("ok\n", "", 0));
      ExecuteStep(cfg, None, net, "echo hi", false, None).result == Ok(CommandResult("ok", "", 0))
  {
    Text.StripPadded([], "ok", "\n");
    Text.StripPadded([], "", []);
    assert [] + "ok" + "\n" == "ok\n";
  }

  /** Running a plan whose next call fails: that call is the last one made. */
  lemma AttemptStops(net: Network, rest: seq<Call>)
    requires rest != [] && !net.accepts(rest[0])
    ensures Attempt(net, rest) == [rest[0]] && !Succeeds(net, rest)
  {
  }

  /** Running a plan whose next call succeeds: that call is made and the rest follows. */
  lemma AttemptContinues(net: Network, rest: seq<Call>)
    requires rest != [] && net.accepts(rest[0])
    ensures Attempt(net, rest) == [rest[0]] + Attempt(net, rest[1..])
    ensures Succeeds(net, rest) <==> Succeeds(net, rest[1..])
  {
    if Succeeds(net, rest[1..]) {
      forall i | 0 <= i < |rest| ensures net.accepts(rest[i]) {
        if i > 0 {
          assert rest[i] == rest[1..][i - 1];
        }
      }
    }
  }

  /** Moving the next call of a plan from the attempt onto the trace keeps the whole. */
  lemma Advance(done: seq<Call>, call: Call, tail: seq<Call>, whole: seq<Call>)
    requires done + ([call] + tail) == whole
    ensures (done + [call]) + tail == whole
  {
    assert (done + [call]) + tail == done + ([call] + tail);
  }

  // ---------------------------------------------------------------------------
  // The executor object
  // ---------------------------------------------------------------------------

  class Executor {
    const hostname: string
    const username: string
    const password: Option<string>
    const keyFilename: Option<string>
    const port: int
    const timeout: int
    var client: Option<Session>
    /** The calls made on the transport so far. */
    ghost var calls: seq<Call>

    function Config(): Settings {
      Settings(hostname, username, password, keyFilename, port, timeout)
    }

    /** A new executor holds no client: it is disconnected. */
    constructor (hostname: string, username: string, password: Option<string> := None,
                 keyFilename: Option<string> := None, port: int := DefaultPort, timeout: int := DefaultTimeout)
      ensures Config() == Settings(hostname, username, password, keyFilename, port, timeout)
      ensures client.None? && calls == []
    {
      this.hostname := hostname;
      this.username := username;
      this.password := password;
      this.keyFilename := keyFilename;
      this.port := port;
      this.timeout := timeout;
      client := None;
      calls := [];
    }

    /** `connect`: store a new client, then make the connect call with the keyword arguments built from the settings. */
    method Connect(net: Network) returns (r: Result<(), ExecutionError>)
      modifies this
      ensures var s := ConnectStep(Config(), net);
        client == s.client && calls == old(calls) + s.calls && r == s.result
    {
      client := Some(Session(false));
      var kwargs := map["hostname" := Str(hostname), "username" := Str(username),
                        "port" := Num(port), "timeout" := Num(timeout)];
      if Truthy(password) {
        kwargs := kwargs["password" := Str(password.value)];
      }
      if Truthy(keyFilename) {
        kwargs := kwargs["key_filename" := Str(keyFilename.value)];
      }
      assert kwargs == ConnectArgs(Config());
      var call := SshConnect(kwargs);
      calls := calls + [call];
      if net.accepts(call) {
        client := Some(Session(true));
        r := Ok(());
      } else {
        r := Err(ConnectionFailed);
      }
    }

    /** `if not self.client: self.connect()`, which opens the operations that need a session. */
    method EnsureConnected(net: Network) returns (r: Result<(), ExecutionError>)
      modifies this
      ensures var c := EnsureSession(Config(), old(client), net);
        client == c.client && calls == old(calls) + c.calls && r == c.result
    {
      r := Ok(());
      if client.None? {
        r := Connect(net);
      }
    }

    /** `execute`: connect if needed, then run the command and return its shaped result. */
    method Execute(net: Network, command: string, sudo: bool := false, env: Option<seq<(string, string)>> := None)
      returns (r: Result<CommandResult, ExecutionError>)
      modifies this
      ensures var s := ExecuteStep(Config(), old(client), net, command, sudo, env);
        client == s.client && calls == old(calls) + s.calls && r == s.result
    {
      ghost var c := EnsureSession(Config(), client, net);
      var connected := EnsureConnected(net);
      if connected.Err? {
        return Err(connected.error);
      }
      var link := Link(net, client.value);
      var cmd := FinalCommand(command, sudo, env);
      r := Run(link, cmd);
      assert calls == old(calls) + (c.calls + [ExecCommand(cmd)]);
    }

    /** Runs `cmd` on an open session and shapes what it prints. */
    method Run(link: Network, cmd: string) returns (r: Result<CommandResult, ExecutionError>)
      modifies this
      ensures client == old(client) && calls == old(calls) + [ExecCommand(cmd)]
      ensures r == if link.accepts(ExecCommand(cmd)) then Ok(Shape(link.output(cmd))) else Err(ExecutionFailed)
    {
      var call := ExecCommand(cmd);
      calls := calls + [call];
      if !link.accepts(call) {
        return Err(ExecutionFailed);
      }
      var out := link.output(cmd);
      r := Ok(Shape(out));
    }

    /**
     * One call of an SFTP transfer, made on the transport; `rest` is what is
     * left of the transfer's plan and `whole` the trace it ends with.
     */
    method Perform(net: Network, call: Call, ghost rest: seq<Call>, ghost whole: seq<Call>) returns (ok: bool)
      requires rest != [] && rest[0] == call && calls + Attempt(net, rest) == whole
      modifies this
      ensures client == old(client) && calls == old(calls) + [call] && ok == net.accepts(call)
      ensures ok ==> calls + Attempt(net, rest[1..]) == whole && (Succeeds(net, rest) <==> Succeeds(net, rest[1..]))
      ensures !ok ==> calls == whole && !Succeeds(net, rest)
    {
      ok := net.accepts(call);
      if ok {
        AttemptContinues(net, rest);
        Advance(calls, call, Attempt(net, rest[1..]), whole);
      } else {
        AttemptStops(net, rest);
      }
      calls := calls + [call];
    }

    /** `upload_file`: connect if needed, then open SFTP, put, chmod when a mode is given, and close. */
    method UploadFile(net: Network, localPath: string, remotePath: string, mode: Option<int> := None)
      returns (r: Result<(), ExecutionError>)
      modifies this
      ensures var s := UploadStep(Config(), old(client), net, localPath, remotePath, mode);
        client == s.client && calls == old(calls) + s.calls && r == s.result
    {
      ghost var c := EnsureSession(Config(), client, net);
      var connected := EnsureConnected(net);
      if connected.Err? {
        return Err(connected.error);
      }
      var link := Link(net, client.value);
      ghost var plan := UploadPlan(localPath, remotePath, mode);
      ghost var whole := old(calls) + (c.calls + Attempt(link, plan));
      assert calls + Attempt(link, plan) == whole;
      var ok := Perform(link, OpenSftp, plan, whole);
      if !ok {
        return Err(UploadFailed);
      }
      ok := Perform(link, SftpPut(localPath, remotePath), plan[1..], whole);
      if !ok {
        return Err(UploadFailed);
      }
      ghost var rest := plan[2..];
      if mode.Some? {
        ok := Perform(link, SftpChmod(remotePath, mode.value), rest, whole);
        if !ok {
          return Err(UploadFailed);
        }
        rest := rest[1..];
      }
      ok := Perform(link, SftpClose, rest, whole);
      if !ok {
        return Err(UploadFailed);
      }
      assert rest[1..] == [];
      r := Ok(());
    }

    /** `download_file`: connect if needed, then open SFTP, get and close. */
    method DownloadFile(net: Network, remotePath: string, localPath: string)
      returns (r: Result<(), ExecutionError>)
      modifies this
      ensures var s := DownloadStep(Config(), old(client), net, remotePath, localPath);
        client == s.client && calls == old(calls) + s.calls && r == s.result
    {
      ghost var c := EnsureSession(Config(), client, net);
      var connected := EnsureConnected(net);
      if connected.Err? {
        return Err(connected.error);
      }
      var link := Link(net, client.value);
      ghost var plan := DownloadPlan(remotePath, localPath);
      ghost var whole := old(calls) + (c.calls + Attempt(link, plan));
      assert calls + Attempt(link, plan) == whole;
      var ok := Perform(link, OpenSftp, plan, whole);
      if !ok {
        return Err(DownloadFailed);
      }
      ok := Perform(link, SftpGet(remotePath, localPath), plan[1..], whole);
      if !ok {
        return Err(DownloadFailed);
      }
      ok := Perform(link, SftpClose, plan[2..], whole);
      if !ok {
        return Err(DownloadFailed);
      }
      assert plan[2..][1..] == [];
      r := Ok(());
    }

    /** `close`: close and drop the held client, if any. */
    method Close()
      modifies this
      ensures var s := CloseStep(old(client));
        client == s.client && calls == old(calls) + s.calls
    {
      if client.Some? {
        calls := calls + [SshClose];
        client := None;
      }
    }
  }
}
