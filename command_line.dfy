/** `main`: the `getopt(argc, argv, "c:s:")` loop, the mode checks and the
    dispatch to server or client mode.

    The options are given as the sequence `getopt` yields; splitting argv
    into options is not modelled. `Classify` states declaratively what
    `main` decides from them, and `ParseOptions` is the loop itself, proved
    to decide the same. */
module CommandLine {
  import opened Grammar
  import opened Relay
  import opened Client

  /** One option as `getopt` returns it: its character and, for -s and -c,
      its argument. An unknown option or a missing argument comes back as
      '?'. */
  datatype Opt = Opt(letter: char, arg: string)

  datatype Problem = BadPort | BadAddress | UnknownOption(letter: char) | NoMode | BothModes

  /** What `main` settles on: a usage error (exit status 1), server mode on
      a port, or client mode to a host and port. */
  datatype Command = Usage(problem: Problem) | Serve(port: int) | Dial(host: string, port: int)

  /** Why `main` stops at option `o`, or None when it takes the option. */
  function Rejection(o: Opt): Option<Problem>
  {
    if o.letter == 's' then (if ScanInt(o.arg).None? then Some(BadPort) else None)
    else if o.letter == 'c' then (if ScanHostPort(o.arg).None? then Some(BadAddress) else None)
    else Some(UnknownOption(o.letter))
  }

  /** The position of the first option at or after `k` that `main`
      rejects, or `|opts|`. */
  function FirstRejectedFrom(opts: seq<Opt>, k: nat): (i: nat)
    requires k <= |opts|
    ensures k <= i <= |opts|
    ensures i < |opts| ==> Rejection(opts[i]).Some?
    ensures forall j :: k <= j < i ==> Rejection(opts[j]).None?
    decreases |opts| - k
  {
    if k == |opts| || Rejection(opts[k]).Some? then k
    else FirstRejectedFrom(opts, k + 1)
  }

  /** The position of the first option `main` rejects, or `|opts|`. */
  function FirstRejected(opts: seq<Opt>): nat
  {
    FirstRejectedFrom(opts, 0)
  }

  /** The position of the last of the first `n` options with the given
      character, or -1 when none of them has it. */
  function LastBefore(opts: seq<Opt>, n: nat, letter: char): (i: int)
    requires n <= |opts|
    ensures -1 <= i < n
    ensures i >= 0 ==> opts[i].letter == letter
    ensures forall j :: i < j < n ==> opts[j].letter != letter
  {
    if n == 0 then -1
    else if opts[n - 1].letter == letter then n - 1
    else LastBefore(opts, n - 1, letter)
  }

  /** Some option has the given character. */
  predicate Uses(opts: seq<Opt>, letter: char)
  {
    LastBefore(opts, |opts|, letter) >= 0
  }

  /** The position of the last option with the given character. */
  function LastOf(opts: seq<Opt>, letter: char): nat
    requires Uses(opts, letter)
  {
    LastBefore(opts, |opts|, letter)
  }

  /** What `main` decides: the first rejected option is the error; with
      every option taken, exactly one of the modes must be used, and the
      mode's argument is the last one given. */
  function Classify(opts: seq<Opt>): Command
  {
    var bad := FirstRejected(opts);
    if bad < |opts| then Usage(Rejection(opts[bad]).value)
    else if !Uses(opts, 's') && !Uses(opts, 'c') then Usage(NoMode)
    else if Uses(opts, 's') && Uses(opts, 'c') then Usage(BothModes)
    else if Uses(opts, 's') then Serve(ScanInt(opts[LastOf(opts, 's')].arg).value)
    else
      var hp := ScanHostPort(opts[LastOf(opts, 'c')].arg).value;
      Dial(hp.0, hp.1)
  }

  /** The option loop of `main` and its mode checks. `isServer`,
      `isClient`, `port` and `domain` are the variables the loop sets; the
      first option it rejects ends it with a usage error. */
  method ParseOptions(opts: seq<Opt>) returns (cmd: Command)
    ensures cmd == Classify(opts)
  {
    var isServer, isClient := false, false;
    var port := 0;
    var domain: string := "";
    var i := 0;
    while i < |opts|
      invariant 0 <= i <= |opts|
      invariant FirstRejectedFrom(opts, i) == FirstRejected(opts)
      invariant isServer <==> LastBefore(opts, i, 's') >= 0
      invariant isClient <==> LastBefore(opts, i, 'c') >= 0
      invariant isServer && !isClient ==> port == ScanInt(opts[LastBefore(opts, i, 's')].arg).value
      invariant isClient && !isServer ==> (domain, port) == ScanHostPort(opts[LastBefore(opts, i, 'c')].arg).value
    {
      var o := opts[i];
      if o.letter == 's' {
        var p := ScanInt(o.arg);
        if p.None? {
          return Usage(BadPort);
        }
        port := p.value;
        isServer := true;
      } else if o.letter == 'c' {
        var hp := ScanHostPort(o.arg);
        if hp.None? {
          return Usage(BadAddress);
        }
        domain, port := hp.value.0, hp.value.1;
        isClient := true;
      } else {
        return Usage(UnknownOption(o.letter));
      }
      i := i + 1;
    }
    if !isServer && !isClient {
      return Usage(NoMode);
    }
    if isServer && isClient {
      return Usage(BothModes);
    }
    if isServer {
      return Serve(port);
    }
    return Dial(domain, port);
  }

  /** `main` after its checks: exit status 1 for a usage error; server mode
      returns 0 once its relay is done; client mode returns what
      `client_mode` returns. `lookup` is the resolver's answer for the host
      of a `Dial`, `sock` the socket `socket()` made for it. */
  method Launch(opts: seq<Opt>, lookup: HostEntry, sock: nat, connectOk: seq<bool>, io: Streams) returns (code: int)
    requires ReadsWithinBuffer(io)
    ensures code == 1 <==> Classify(opts).Usage?
    ensures Classify(opts).Serve? ==> code == 0
    ensures Classify(opts).Dial? ==>
              (code == 0 <==> lookup.addrtype == AF_INET && exists k :: 0 <= k < |lookup.addrs| && Accepts(connectOk, k))
    ensures Classify(opts).Dial? ==> code == 0 || code == -1
  {
    var cmd := ParseOptions(opts);
    match cmd
    case Usage(_) =>
      code := 1;
    case Serve(_) =>
      var up, down, peerGot, stdoutGot := SendRecv(io);
      code := 0;
    case Dial(_, _) =>
      var relayed;
      code, relayed := ClientMode(lookup, sock, connectOk, io);
  }

  // ---------------------------------------------------------------------
  // Properties of the decision.

  /** `main` ends in a usage error exactly when some option is rejected or
      the number of modes used is not one. */
  lemma UsageExactly(opts: seq<Opt>)
    ensures Classify(opts).Usage? <==>
              (exists j :: 0 <= j < |opts| && Rejection(opts[j]).Some?) || Uses(opts, 's') == Uses(opts, 'c')
  {
    if exists j :: 0 <= j < |opts| && Rejection(opts[j]).Some? {
      assert FirstRejected(opts) < |opts|;
    }
  }

  /** Options after a rejected one are never looked at. */
  lemma {:induction false} FirstProblemWins(opts: seq<Opt>, rest: seq<Opt>)
    requires FirstRejected(opts) < |opts|
    ensures Classify(opts + rest) == Classify(opts)
  {
    var bad := FirstRejected(opts);
    assert forall j :: 0 <= j <= bad ==> (opts + rest)[j] == opts[j];
    assert FirstRejected(opts + rest) == bad;
  }

  /** `-s <port>` alone selects server mode on that port. */
  lemma ServeRoundTrip(n: int)
    ensures Classify([Opt('s', Show(n))]) == Serve(n)
  {
    ScanShow(n);
    var opts := [Opt('s', Show(n))];
    assert opts[0].letter == 's';
  }

  /** `-c <host>:<port>` alone selects client mode to that host and port,
      for a host of 1 to 256 characters without ':'. */
  lemma DialRoundTrip(h: string, n: int)
    requires 1 <= |h| <= HOST_WIDTH && ':' !in h
    ensures Classify([Opt('c', h + ":" + Show(n))]) == Dial(h, n)
  {
    ScanHostPortShow(h, n);
    var opts := [Opt('c', h + ":" + Show(n))];
    assert opts[0].letter == 'c';
  }

  /** Of two `-s` options the last one's port is used. */
  lemma LastPortWins(a: int, b: int)
    ensures Classify([Opt('s', Show(a)), Opt('s', Show(b))]) == Serve(b)
  {
    ScanShow(a);
    ScanShow(b);
    var opts := [Opt('s', Show(a)), Opt('s', Show(b))];
    assert Uses(opts, 's') && opts[1].letter == 's';
  }

  /** `-s 80x`: a port with a trailing character is a usage error. */
  lemma RejectsTrailingPort()
    ensures Classify([Opt('s', "80x")]) == Usage(BadPort)
  {
    ScanIntEndsInDigit("80x");
  }

  /** `-c host`: an address without a port is a usage error. */
  lemma RejectsHostWithoutPort()
    ensures Classify([Opt('c', "host")]) == Usage(BadAddress)
  {
    HostAloneRejected("host");
  }

  /** `-s 80 -c host:80`: both modes at once is a usage error. */
  lemma RejectsBothModes()
    ensures Classify([Opt('s', "80"), Opt('c', "host:80")]) == Usage(BothModes)
  {
    ScanShow(80);
    assert Show(80) == "80";
    ScanHostPortShow("host", 80);
    assert "host" + ":" + "80" == "host:80";
  }

  /** No options at all is a usage error. */
  lemma RejectsNoMode()
    ensures Classify([]) == Usage(NoMode)
  {
  }
}
