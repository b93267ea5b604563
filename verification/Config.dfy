/**
 The service's command line: `ws_config` splits its own options from the arguments it
 passes on, using a reader over the vector and an argument list of fixed capacity.
 */
module Config {
  import opened Bytes
  import opened Numbers

  datatype Command = Run | PrintVersion | ShowHelp

  datatype Config = Config(
    failed: bool, // exit_code is EXIT_FAILURE
    cmd: Command,
    port: u16,
    vhostName: string,
    docroot: string,
    useTls: bool,
    certPath: string,
    keyPath: string,
    authenticator: string,
    authHeader: string,
    timeoutSecs: u64)

  const DEFAULT := Config(false, Run, 8081, "localhost", "", false, "", "", "", "", 10)

  // ----- Specification -----

  predicate TakesValue(option: string) {
    || option == "--wf-port" || option == "--wf-vhost" || option == "--wf-key" || option == "--wf-cert"
    || option == "--wf-authenticator" || option == "--wf-auth-header" || option == "--wf-timeout"
    || option == "--wf-docroot"
  }

  predicate TakesNumber(option: string) {
    option == "--wf-port" || option == "--wf-timeout"
  }

  predicate IsFlag(option: string) {
    option == "-h" || option == "--help" || option == "--wf-version"
  }

  function ToLower(s: string): string {
    seq(|s|, i requires 0 <= i < |s| => if 'A' <= s[i] <= 'Z' then (s[i] as int + 32) as char else s[i])
  }

  function WithFlag(c: Config, option: string): Config {
    c.(cmd := if option == "--wf-version" then PrintVersion else ShowHelp)
  }

  /** An option with its value; a value that is no number throws. */
  function WithValue(c: Config, option: string, value: string): Result<Config> {
    if option == "--wf-port" then var n :- Stoi(value); Ok(c.(port := n % 0x1_0000))
    else if option == "--wf-vhost" then Ok(c.(vhostName := value))
    else if option == "--wf-key" then Ok(c.(keyPath := value, useTls := true))
    else if option == "--wf-cert" then Ok(c.(certPath := value, useTls := true))
    else if option == "--wf-authenticator" then Ok(c.(authenticator := value))
    else if option == "--wf-auth-header" then Ok(c.(authHeader := ToLower(value)))
    else if option == "--wf-timeout" then var n :- Stoi(value); Ok(c.(timeoutSecs := n % TWO64))
    else Ok(c.(docroot := value))
  }

  /** The settings after reading the arguments from position `i` on; an option whose value is missing fails. */
  function Scan(argv: seq<string>, i: nat, c: Config): Result<Config>
    decreases |argv| - i
  {
    if i >= |argv| then Ok(c)
    else if IsFlag(argv[i]) then Scan(argv, i + 1, WithFlag(c, argv[i]))
    else if TakesValue(argv[i]) then
      if i + 1 < |argv| then
        var c' :- WithValue(c, argv[i], argv[i + 1]);
        Scan(argv, i + 2, c')
      else Ok(c.(cmd := ShowHelp, failed := true))
    else Scan(argv, i + 1, c)
  }

  /** The arguments from position `i` on that are neither options of the service nor their values. */
  function PassedOn(argv: seq<string>, i: nat): seq<string>
    decreases |argv| - i
  {
    if i >= |argv| then []
    else if IsFlag(argv[i]) then PassedOn(argv, i + 1)
    else if TakesValue(argv[i]) then PassedOn(argv, i + 2)
    else [argv[i]] + PassedOn(argv, i + 1)
  }

  /** What one argument contributes to both. */
  lemma OneArgument(argv: seq<string>, i: nat, c: Config)
    ensures i >= |argv| ==> Scan(argv, i, c) == Ok(c) && PassedOn(argv, i) == []
    ensures i < |argv| && IsFlag(argv[i]) ==>
              Scan(argv, i, c) == Scan(argv, i + 1, WithFlag(c, argv[i])) && PassedOn(argv, i) == PassedOn(argv, i + 1)
    ensures i < |argv| && !IsFlag(argv[i]) && TakesValue(argv[i]) ==>
              && PassedOn(argv, i) == PassedOn(argv, i + 2)
              && (i + 1 >= |argv| ==>
                    Scan(argv, i, c) == Ok(c.(cmd := ShowHelp, failed := true)) && PassedOn(argv, i + 2) == [])
              && (i + 1 < |argv| ==>
                    Scan(argv, i, c) == match WithValue(c, argv[i], argv[i + 1])
                                        case Throw => Throw
                                        case Ok(c') => Scan(argv, i + 2, c'))
    ensures i < |argv| && !IsFlag(argv[i]) && !TakesValue(argv[i]) ==>
              Scan(argv, i, c) == Scan(argv, i + 1, c) && PassedOn(argv, i) == [argv[i]] + PassedOn(argv, i + 1)
  {
    hide IsFlag, TakesValue, WithValue, WithFlag;
  }

  /** `verify`. */
  function Verified(c: Config): Config {
    if c.cmd == Run && c.useTls && (c.keyPath == "" || c.certPath == "")
    then c.(cmd := ShowHelp, failed := true) else c
  }

  // ----- Properties -----

  /** `xs` can be found in `ys` in order, possibly with gaps. */
  predicate Subsequence<T(==)>(xs: seq<T>, ys: seq<T>) {
    xs == [] || (ys != [] && ((xs[0] == ys[0] && Subsequence(xs[1..], ys[1..])) || Subsequence(xs, ys[1..])))
  }

  lemma {:induction false} SkipOne<T>(xs: seq<T>, y: T, ys: seq<T>)
    requires Subsequence(xs, ys)
    ensures Subsequence(xs, [y] + ys)
  {
    assert ([y] + ys)[1..] == ys;
  }

  /** What is passed on keeps its order and adds nothing. */
  lemma {:induction false} PassedOnIsSubsequence(argv: seq<string>, i: nat)
    requires i <= |argv|
    ensures Subsequence(PassedOn(argv, i), argv[i..]) && |PassedOn(argv, i)| <= |argv| - i
    decreases |argv| - i
  {
    if i < |argv| {
      hide IsFlag, TakesValue;
      assert argv[i..] == [argv[i]] + argv[i + 1..];
      if IsFlag(argv[i]) {
        PassedOnIsSubsequence(argv, i + 1);
        SkipOne(PassedOn(argv, i + 1), argv[i], argv[i + 1..]);
      } else if TakesValue(argv[i]) {
        if i + 1 < |argv| {
          PassedOnIsSubsequence(argv, i + 2);
          assert argv[i + 1..] == [argv[i + 1]] + argv[i + 2..];
          SkipOne(PassedOn(argv, i + 2), argv[i + 1], argv[i + 2..]);
          SkipOne(PassedOn(argv, i + 2), argv[i], argv[i + 1..]);
        }
      } else {
        PassedOnIsSubsequence(argv, i + 1);
        assert argv[i..][1..] == argv[i + 1..];
        assert PassedOn(argv, i)[1..] == PassedOn(argv, i + 1);
      }
    }
  }

  /** Every number the scan will read is one. */
  predicate NumbersRead(argv: seq<string>, i: nat)
    decreases |argv| - i
  {
    i >= |argv| ||
    if IsFlag(argv[i]) || !TakesValue(argv[i]) then NumbersRead(argv, i + 1)
    else (i + 1 < |argv| && TakesNumber(argv[i]) ==> Stoi(argv[i + 1]).Ok?) && NumbersRead(argv, i + 2)
  }

  /** The command line throws exactly when a port or timeout is not a number. */
  lemma {:induction false} ThrowsIffBadNumber(argv: seq<string>, i: nat, c: Config)
    ensures Scan(argv, i, c).Ok? <==> NumbersRead(argv, i)
    decreases |argv| - i
  {
    hide Stoi, ToLower;
    if i < |argv| {
      if IsFlag(argv[i]) {
        ThrowsIffBadNumber(argv, i + 1, WithFlag(c, argv[i]));
      } else if !TakesValue(argv[i]) {
        ThrowsIffBadNumber(argv, i + 1, c);
      } else if i + 1 < |argv| && WithValue(c, argv[i], argv[i + 1]).Ok? {
        ThrowsIffBadNumber(argv, i + 2, WithValue(c, argv[i], argv[i + 1]).value);
      }
    }
  }

  lemma {:induction false} FailureShowsHelp(argv: seq<string>, i: nat, c: Config)
    requires !c.failed
    ensures Scan(argv, i, c).Ok? ==> var d := Scan(argv, i, c).value; d.failed ==> d.cmd == ShowHelp
    decreases |argv| - i
  {
    hide Stoi, ToLower;
    if i < |argv| {
      if IsFlag(argv[i]) {
        FailureShowsHelp(argv, i + 1, WithFlag(c, argv[i]));
      } else if !TakesValue(argv[i]) {
        FailureShowsHelp(argv, i + 1, c);
      } else if i + 1 < |argv| && WithValue(c, argv[i], argv[i + 1]).Ok? {
        FailureShowsHelp(argv, i + 2, WithValue(c, argv[i], argv[i + 1]).value);
      }
    }
  }

  /** A failure exit code comes with the help text, and a TLS service has both of its files. */
  lemma ConsistentOutcome(argv: seq<string>)
    ensures var r := Scan(argv, 1, DEFAULT);
            r.Ok? ==> var c := Verified(r.value);
                      && (c.failed ==> c.cmd == ShowHelp)
                      && (c.cmd == Run && c.useTls ==> c.keyPath != "" && c.certPath != "")
  {
    hide Scan;
    FailureShowsHelp(argv, 1, DEFAULT);
  }

  // ----- What a command line means -----

  /** The service's own options; those with a value take the argument behind them. */
  const FLAGS: set<string> := {"-h", "--help", "--wf-version"}

  const VALUED: set<string> := {
    "--wf-port", "--wf-vhost", "--wf-key", "--wf-cert", "--wf-authenticator", "--wf-auth-header", "--wf-timeout",
    "--wf-docroot"}

  lemma OwnOptions(option: string)
    ensures IsFlag(option) <==> option in FLAGS
    ensures TakesValue(option) <==> option in VALUED
  {
  }

  /** The argument at this position is read as such, and not as the value of the option in front of it. */
  predicate IsRead(argv: seq<string>, i: nat)
    requires 1 <= i <= |argv|
  {
    i == 1 || !(IsRead(argv, i - 1) && argv[i - 1] in VALUED)
  }

  /** The option occurs at this position, with a value behind it. */
  predicate Occurs(argv: seq<string>, option: string, i: nat) {
    1 <= i && i + 1 < |argv| && IsRead(argv, i) && argv[i] == option
  }

  /** The value behind the last occurrence of an option among the first `n` arguments. */
  function LastValue(argv: seq<string>, option: string, n: nat): (v: Option<string>)
    ensures v.None? ==> forall i | 1 <= i < n :: !Occurs(argv, option, i)
    ensures v.Some? ==> exists i | 1 <= i < n ::
                          && Occurs(argv, option, i) && v.value == argv[i + 1]
                          && forall j | i < j < n :: !Occurs(argv, option, j)
  {
    if n <= 1 then None
    else if Occurs(argv, option, n - 1) then Some(argv[n])
    else LastValue(argv, option, n - 1)
  }

  /** The last flag among the first `n` arguments. */
  function LastFlag(argv: seq<string>, n: nat): (f: Option<string>)
    requires n <= |argv|
    ensures f.None? ==> forall i | 1 <= i < n :: !(IsRead(argv, i) && argv[i] in FLAGS)
    ensures f.Some? ==> exists i | 1 <= i < n ::
                          && IsRead(argv, i) && argv[i] in FLAGS && f.value == argv[i]
                          && forall j | i < j < n :: !(IsRead(argv, j) && argv[j] in FLAGS)
  {
    if n <= 1 then None
    else if IsRead(argv, n - 1) && argv[n - 1] in FLAGS then Some(argv[n - 1])
    else LastFlag(argv, n - 1)
  }

  /** The last argument is an option whose value is missing. */
  predicate MissesValue(argv: seq<string>) {
    |argv| > 1 && IsRead(argv, |argv| - 1) && argv[|argv| - 1] in VALUED
  }

  /** The arguments among the first `n` that are neither the service's options nor their values. */
  function Foreign(argv: seq<string>, n: nat): seq<string>
    requires n <= |argv|
  {
    if n <= 1 then []
    else
      var i := n - 1;
      Foreign(argv, i) + (if IsRead(argv, i) && argv[i] !in FLAGS + VALUED then [argv[i]] else [])
  }

  function ValueOr(v: Option<string>, default: string): string {
    match v
    case None => default
    case Some(value) => value
  }

  /** Only the capitals change, each to the letter 32 places behind it. */
  lemma LowerCase(s: string)
    ensures |ToLower(s)| == |s| && ToLower(ToLower(s)) == ToLower(s)
    ensures forall i | 0 <= i < |s| ::
              if 'A' <= s[i] <= 'Z' then ToLower(s)[i] as int == s[i] as int + 32 else ToLower(s)[i] == s[i]
  {
  }

  /** Each text setting is the value behind the last occurrence of its option, or its default. */
  predicate TextsAsGiven(argv: seq<string>, n: nat, c: Config) {
    && c.vhostName == ValueOr(LastValue(argv, "--wf-vhost", n), "localhost")
    && c.docroot == ValueOr(LastValue(argv, "--wf-docroot", n), "")
    && c.keyPath == ValueOr(LastValue(argv, "--wf-key", n), "")
    && c.certPath == ValueOr(LastValue(argv, "--wf-cert", n), "")
    && c.authenticator == ValueOr(LastValue(argv, "--wf-authenticator", n), "")
    && c.authHeader == ToLower(ValueOr(LastValue(argv, "--wf-auth-header", n), ""))
  }

  /** The numbers, which wrap like the types they are stored in. */
  predicate NumbersAsGiven(argv: seq<string>, n: nat, c: Config) {
    && (match LastValue(argv, "--wf-port", n)
        case None => c.port == 8081
        case Some(v) => Stoi(v).Ok? && c.port == Stoi(v).value % 0x1_0000)
    && (match LastValue(argv, "--wf-timeout", n)
        case None => c.timeoutSecs == 10
        case Some(v) => Stoi(v).Ok? && c.timeoutSecs == Stoi(v).value % TWO64)
  }

  /** TLS is used exactly when a key or a certificate is given. */
  predicate TlsAsGiven(argv: seq<string>, n: nat, c: Config) {
    c.useTls <==> LastValue(argv, "--wf-key", n).Some? || LastValue(argv, "--wf-cert", n).Some?
  }

  /** The command is that of the last flag. */
  predicate CommandAsGiven(argv: seq<string>, n: nat, cmd: Command)
    requires n <= |argv|
  {
    cmd == match LastFlag(argv, n)
           case None => Run
           case Some(flag) => if flag == "--wf-version" then PrintVersion else ShowHelp
  }

  predicate AsGiven(argv: seq<string>, n: nat, c: Config) {
    TextsAsGiven(argv, n, c) && NumbersAsGiven(argv, n, c) && TlsAsGiven(argv, n, c)
  }

  /** An argument without a value behind it changes no setting. */
  lemma NoOccurrence(argv: seq<string>, n: nat, c: Config)
    requires 1 <= n && AsGiven(argv, n, c)
    requires forall option | option in VALUED :: !Occurs(argv, option, n)
    ensures AsGiven(argv, n + 1, c)
  {
    hide Occurs, Stoi, ToLower;
    assert forall option | option in VALUED :: LastValue(argv, option, n + 1) == LastValue(argv, option, n);
    hide LastValue;
  }

  lemma OneLast(argv: seq<string>, option: string, n: nat)
    requires 1 <= n && n + 1 < |argv| && IsRead(argv, n) && argv[n] in VALUED
    ensures LastValue(argv, option, n + 2)
            == if argv[n] == option then Some(argv[n + 1]) else LastValue(argv, option, n)
  {
    hide VALUED;
    assert !IsRead(argv, n + 1) && !Occurs(argv, option, n + 1);
    assert LastValue(argv, option, n + 2) == LastValue(argv, option, n + 1);
  }

  lemma DifferentOptions(o: string)
    requires o in VALUED
    ensures o == "--wf-port" ==> o != "--wf-vhost" && o != "--wf-key" && o != "--wf-cert"
    ensures o == "--wf-port" || o == "--wf-vhost" || o == "--wf-key" || o == "--wf-cert" ==>
              o != "--wf-authenticator" && o != "--wf-auth-header" && o != "--wf-timeout" && o != "--wf-docroot"
    ensures o == "--wf-vhost" ==> o != "--wf-key" && o != "--wf-cert"
    ensures o == "--wf-key" ==> o != "--wf-cert"
    ensures o == "--wf-authenticator" ==> o != "--wf-auth-header" && o != "--wf-timeout" && o != "--wf-docroot"
    ensures o == "--wf-auth-header" ==> o != "--wf-timeout" && o != "--wf-docroot"
    ensures o == "--wf-timeout" ==> o != "--wf-docroot"
    ensures o == "--wf-port" || o == "--wf-vhost" || o == "--wf-key" || o == "--wf-cert" || o == "--wf-authenticator"
            || o == "--wf-auth-header" || o == "--wf-timeout" || o == "--wf-docroot"
  {
    if o == "--wf-port" { assert o[5] == 'p'; }
    if o == "--wf-timeout" { assert o[5] == 't'; }
  }

  lemma OneText(argv: seq<string>, n: nat, c: Config, c': Config)
    requires 1 <= n && TextsAsGiven(argv, n, c) && n + 1 < |argv| && IsRead(argv, n) && argv[n] in VALUED
    requires WithValue(c, argv[n], argv[n + 1]) == Ok(c')
    ensures TextsAsGiven(argv, n + 2, c')
  {
    hide Stoi, ToLower, LastValue, Occurs, IsRead, VALUED;
    DifferentOptions(argv[n]);
    OneLast(argv, "--wf-vhost", n);
    OneLast(argv, "--wf-key", n);
    OneLast(argv, "--wf-cert", n);
    OneLast(argv, "--wf-authenticator", n);
    OneLast(argv, "--wf-auth-header", n);
    OneLast(argv, "--wf-docroot", n);
  }

  lemma OneNumber(argv: seq<string>, n: nat, c: Config, c': Config)
    requires 1 <= n && NumbersAsGiven(argv, n, c) && n + 1 < |argv| && IsRead(argv, n) && argv[n] in VALUED
    requires WithValue(c, argv[n], argv[n + 1]) == Ok(c')
    ensures NumbersAsGiven(argv, n + 2, c')
  {
    hide Stoi, ToLower, LastValue, Occurs, IsRead, VALUED;
    DifferentOptions(argv[n]);
    OneLast(argv, "--wf-port", n);
    OneLast(argv, "--wf-timeout", n);
  }

  lemma OneTls(argv: seq<string>, n: nat, c: Config, c': Config)
    requires 1 <= n && TlsAsGiven(argv, n, c) && n + 1 < |argv| && IsRead(argv, n) && argv[n] in VALUED
    requires WithValue(c, argv[n], argv[n + 1]) == Ok(c')
    ensures TlsAsGiven(argv, n + 2, c')
  {
    hide Stoi, ToLower, LastValue, Occurs, IsRead, VALUED;
    DifferentOptions(argv[n]);
    OneLast(argv, "--wf-key", n);
    OneLast(argv, "--wf-cert", n);
  }

  /** Reading an option with its value is what the setting's meaning asks for. */
  lemma OneOccurrence(argv: seq<string>, n: nat, c: Config)
    requires 1 <= n && AsGiven(argv, n, c) && n + 1 < |argv| && IsRead(argv, n) && argv[n] in VALUED
    ensures WithValue(c, argv[n], argv[n + 1]).Ok? ==> AsGiven(argv, n + 2, WithValue(c, argv[n], argv[n + 1]).value)
  {
    hide WithValue, TextsAsGiven, NumbersAsGiven, TlsAsGiven, IsRead, VALUED;
    if WithValue(c, argv[n], argv[n + 1]).Ok? {
      var c' := WithValue(c, argv[n], argv[n + 1]).value;
      OneText(argv, n, c, c');
      OneNumber(argv, n, c, c');
      OneTls(argv, n, c, c');
    }
  }

  /** From a position that is read, the scan gives every later setting its meaning. */
  lemma {:induction false} ScanAsGiven(argv: seq<string>, i: nat, c: Config)
    requires 1 <= i <= |argv| && IsRead(argv, i) && !c.failed
    requires AsGiven(argv, i, c) && CommandAsGiven(argv, i, c.cmd)
    ensures Scan(argv, i, c).Ok? ==>
              var d := Scan(argv, i, c).value;
              && AsGiven(argv, |argv|, d) && (d.failed <==> MissesValue(argv))
              && (if d.failed then d.cmd == ShowHelp else CommandAsGiven(argv, |argv|, d.cmd))
    decreases |argv| - i
  {
    OneArgument(argv, i, c);
    hide Scan, AsGiven, WithValue, IsFlag, TakesValue;
    if i < |argv| {
      OwnOptions(argv[i]);
      FlagsApart(argv[i]);
      if argv[i] in FLAGS {
        FlagSets(argv, i, c);
        ScanAsGiven(argv, i + 1, WithFlag(c, argv[i]));
      } else if argv[i] !in VALUED {
        NoOccurrence(argv, i, c);
        ScanAsGiven(argv, i + 1, c);
      } else if i + 1 < |argv| {
        if WithValue(c, argv[i], argv[i + 1]).Ok? {
          var c' := WithValue(c, argv[i], argv[i + 1]).value;
          OneOccurrence(argv, i, c);
          ValueKeepsCommand(c, argv[i], argv[i + 1]);
          ScanAsGiven(argv, i + 2, c');
        }
      } else {
        NoOccurrence(argv, i, c);
        SameSettings(argv, |argv|, c, c.(cmd := ShowHelp, failed := true));
      }
    } else {
      NothingMissing(argv);
    }
  }

  lemma FlagsApart(option: string)
    ensures !(option in FLAGS && option in VALUED)
  {
  }

  lemma FlagSets(argv: seq<string>, i: nat, c: Config)
    requires 1 <= i < |argv| && IsRead(argv, i) && argv[i] in FLAGS && AsGiven(argv, i, c)
    ensures AsGiven(argv, i + 1, WithFlag(c, argv[i])) && CommandAsGiven(argv, i + 1, WithFlag(c, argv[i]).cmd)
    ensures IsRead(argv, i + 1)
  {
    FlagsApart(argv[i]);
    hide VALUED, FLAGS, AsGiven;
    assert LastFlag(argv, i + 1) == Some(argv[i]);
    assert IsRead(argv, i + 1);
    assert forall option | option in VALUED :: !Occurs(argv, option, i);
    hide Occurs, IsRead, LastFlag;
    NoOccurrence(argv, i, c);
    SameSettings(argv, i + 1, c, WithFlag(c, argv[i]));
  }

  lemma SameSettings(argv: seq<string>, n: nat, c: Config, d: Config)
    requires AsGiven(argv, n, c) && d == c.(cmd := d.cmd, failed := d.failed)
    ensures AsGiven(argv, n, d)
  {
    hide LastValue, Stoi, ToLower;
  }

  lemma ValueKeepsCommand(c: Config, option: string, value: string)
    requires WithValue(c, option, value).Ok?
    ensures WithValue(c, option, value).value.cmd == c.cmd && WithValue(c, option, value).value.failed == c.failed
  {
    hide Stoi, ToLower;
  }

  /** A position that is read, behind the last argument, leaves no value missing. */
  lemma NothingMissing(argv: seq<string>)
    requires |argv| >= 1 && IsRead(argv, |argv|)
    ensures !MissesValue(argv)
  {
  }

  /**
   What a command line means as a whole: every setting is the value behind the last occurrence of its option or its
   default; TLS is used exactly when a key or certificate is given; the outcome is a failure with the help text exactly
   when a value is missing or a TLS service lacks one of its paths; and otherwise the last flag decides the command.
   */
  predicate Meant(argv: seq<string>, c: Config) {
    && AsGiven(argv, |argv|, c)
    && (c.failed <==>
          || MissesValue(argv)
          || (LastFlag(argv, |argv|).None? && c.useTls && (c.keyPath == "" || c.certPath == "")))
    && (if c.failed then c.cmd == ShowHelp else CommandAsGiven(argv, |argv|, c.cmd))
  }

  lemma CommandLineMeaning(argv: seq<string>)
    requires argv != []
    ensures var r := Scan(argv, 1, DEFAULT); r.Ok? ==> Meant(argv, Verified(r.value))
  {
    hide Scan, AsGiven, MissesValue, LastFlag;
    NothingGiven(argv);
    assert CommandAsGiven(argv, 1, Run) by { NoFlag(argv); }
    ScanAsGiven(argv, 1, DEFAULT);
    var r := Scan(argv, 1, DEFAULT);
    if r.Ok? { SameSettings(argv, |argv|, r.value, Verified(r.value)); }
  }

  lemma NoFlag(argv: seq<string>)
    requires argv != []
    ensures LastFlag(argv, 1).None?
  {
  }

  lemma NothingGiven(argv: seq<string>)
    ensures AsGiven(argv, 1, DEFAULT)
  {
    hide Stoi;
    assert ToLower("") == "";
  }

  /** A port or timeout that is not a number. */
  predicate GivesBadNumber(argv: seq<string>, i: nat) {
    (Occurs(argv, "--wf-port", i) || Occurs(argv, "--wf-timeout", i)) && Stoi(argv[i + 1]).Throw?
  }

  lemma {:induction false} BadNumbers(argv: seq<string>, i: nat)
    requires 1 <= i && (i <= |argv| ==> IsRead(argv, i))
    ensures NumbersRead(argv, i) <==> forall k | k >= i :: !GivesBadNumber(argv, k)
    decreases |argv| - i
  {
    if i < |argv| {
      OwnOptions(argv[i]);
      FlagsApart(argv[i]);
      NumberOptions(argv[i]);
      hide Stoi, IsFlag, TakesValue, TakesNumber, VALUED, FLAGS;
      var next := if argv[i] in VALUED then i + 2 else i + 1;
      if argv[i] in VALUED && i + 1 < |argv| { assert !IsRead(argv, i + 1) && !GivesBadNumber(argv, i + 1); }
      BadNumbers(argv, next);
      assert GivesBadNumber(argv, i) <==> i + 1 < |argv| && TakesNumber(argv[i]) && Stoi(argv[i + 1]).Throw?;
      assert forall k | i < k < next :: !GivesBadNumber(argv, k);
      hide GivesBadNumber, IsRead;
    }
  }

  lemma NumberOptions(option: string)
    ensures TakesNumber(option) <==> option == "--wf-port" || option == "--wf-timeout"
    ensures TakesNumber(option) ==> option in VALUED
  {
  }

  /** What is passed on is exactly what is not the service's own. */
  lemma {:induction false} PassedOnIsForeign(argv: seq<string>, i: nat)
    requires 1 <= i <= |argv| && IsRead(argv, i)
    ensures Foreign(argv, i) + PassedOn(argv, i) == Foreign(argv, |argv|)
    decreases |argv| - i
  {
    OneArgument(argv, i, DEFAULT);
    hide PassedOn, IsFlag, TakesValue;
    if i < |argv| {
      OwnOptions(argv[i]);
      FlagsApart(argv[i]);
      var f := Foreign(argv, i);
      if argv[i] in FLAGS {
        PassedOnIsForeign(argv, i + 1);
      } else if argv[i] !in VALUED {
        PassedOnIsForeign(argv, i + 1);
        assert f + ([argv[i]] + PassedOn(argv, i + 1)) == f + [argv[i]] + PassedOn(argv, i + 1);
      } else if i + 1 < |argv| {
        assert !IsRead(argv, i + 1) && Foreign(argv, i + 2) == Foreign(argv, i + 1) + [] == f;
        PassedOnIsForeign(argv, i + 2);
      } else {
        assert f + [] == f;
      }
    }
  }

  // ----- The loop's invariant -----

  /** With `passed` taken over and `config` read, the scan goes on at argument `i`, or is over after a failure. */
  ghost predicate Reading(argv: seq<string>, passed: seq<string>, i: nat, config: Config)
    requires argv != []
  {
    && Scan(argv, 1, DEFAULT) == (if config.failed then Ok(config) else Scan(argv, i, config))
    && [argv[0]] + PassedOn(argv, 1) == (if config.failed then passed else passed + PassedOn(argv, i))
  }

  lemma ReadingStarts(argv: seq<string>)
    requires argv != []
    ensures Reading(argv, [argv[0]], 1, DEFAULT)
  {
    hide Scan, PassedOn;
  }

  lemma ReadingFlag(argv: seq<string>, passed: seq<string>, i: nat, config: Config)
    requires argv != [] && !config.failed && Reading(argv, passed, i, config) && i < |argv| && IsFlag(argv[i])
    ensures Reading(argv, passed, i + 1, WithFlag(config, argv[i]))
  {
    hide Scan, PassedOn, IsFlag, TakesValue, WithValue;
    OneArgument(argv, i, config);
  }

  lemma ReadingOther(argv: seq<string>, passed: seq<string>, i: nat, config: Config)
    requires argv != [] && !config.failed && Reading(argv, passed, i, config) && i < |argv|
    requires !IsFlag(argv[i]) && !TakesValue(argv[i])
    ensures Reading(argv, passed + [argv[i]], i + 1, config)
  {
    hide Scan, PassedOn, IsFlag, TakesValue, WithValue;
    OneArgument(argv, i, config);
    var later := PassedOn(argv, i + 1);
    assert passed + ([argv[i]] + later) == passed + [argv[i]] + later;
  }

  lemma ReadingValue(argv: seq<string>, passed: seq<string>, i: nat, config: Config)
    requires argv != [] && !config.failed && Reading(argv, passed, i, config) && i + 1 < |argv|
    requires !IsFlag(argv[i]) && TakesValue(argv[i])
    ensures match WithValue(config, argv[i], argv[i + 1])
            case Throw => Scan(argv, 1, DEFAULT) == Throw
            case Ok(c) => !c.failed ==> Reading(argv, passed, i + 2, c)
  {
    hide Scan, PassedOn, IsFlag, TakesValue, WithValue;
    OneArgument(argv, i, config);
  }

  lemma ReadingMissing(argv: seq<string>, passed: seq<string>, i: nat, config: Config)
    requires argv != [] && !config.failed && Reading(argv, passed, i, config) && i + 1 == |argv|
    requires !IsFlag(argv[i]) && TakesValue(argv[i])
    ensures Reading(argv, passed, i + 2, config.(cmd := ShowHelp, failed := true))
  {
    hide Scan, PassedOn, IsFlag, TakesValue, WithValue;
    OneArgument(argv, i, config);
    assert passed + [] == passed;
  }

  lemma ReadingEnds(argv: seq<string>, passed: seq<string>, i: nat, config: Config)
    requires argv != [] && Reading(argv, passed, i, config) && (config.failed || i >= |argv|)
    ensures Scan(argv, 1, DEFAULT) == Ok(config) && passed == [argv[0]] + PassedOn(argv, 1)
  {
    hide Scan, PassedOn;
    OneArgument(argv, i, config);
    assert passed + [] == passed;
  }

  // ----- The argument list and the reader -----

  /** `commandline_args`: a null-terminated vector of fixed capacity. */
  class Arguments {
    const capacity: nat
    const argv: array<Option<string>>
    var argc: nat

    ghost predicate Valid()
      reads this, argv
    {
      && argv.Length == capacity + 1 && argc <= capacity
      && argv[argc] == None
      && forall i | 0 <= i < argc :: argv[i].Some?
    }

    ghost function Contents(): seq<string>
      requires Valid()
      reads this, argv
    {
      seq(argc, i requires 0 <= i < argc reads this, argv requires Valid() => argv[i].value)
    }

    /** The constructor throws for a capacity below 1; its caller's is at least 1. */
    constructor (name: string, capacity: nat)
      requires capacity >= 1
      ensures Valid() && this.capacity == capacity && Contents() == [name] && fresh(argv)
    {
      this.capacity := capacity;
      argv := new Option<string>[capacity + 1](i => None);
      argc := 0;
      new;
      var pushed := Push(name);
    }

    /** `push` throws when the capacity is used up, and otherwise keeps the list null-terminated. */
    method Push(arg: string) returns (r: Result<()>)
      requires Valid()
      modifies `argc, argv
      ensures Valid()
      ensures r.Throw? <==> old(argc) == capacity
      ensures Contents() == if r.Ok? then old(Contents()) + [arg] else old(Contents())
    {
      if argc < capacity {
        argv[argc] := Some(arg);
        argv[argc + 1] := None;
        argc := argc + 1;
        assert forall i | 0 <= i < argc - 1 :: Contents()[i] == old(Contents())[i];
        return Ok(());
      }
      return Throw;
    }
  }

  /** `commandline_reader`. */
  class CommandReader {
    const argv: seq<string>
    var position: nat

    constructor (argv: seq<string>)
      ensures this.argv == argv && position == 0
    {
      this.argv, position := argv, 0;
    }

    method Next() returns (hasNext: bool)
      modifies this
      ensures position == if old(position) < |argv| then old(position) + 1 else old(position)
      ensures hasNext <==> position < |argv|
    {
      if position < |argv| { position := position + 1; }
      hasNext := position < |argv|;
    }

    method Current() returns (arg: string)
      requires position < |argv|
      ensures arg == argv[position]
    {
      arg := argv[position];
    }
  }

  /** `ws_config`. */
  class WsConfig {
    var config: Config
    var args: Arguments?

    constructor ()
      ensures config == DEFAULT && args == null
    {
      config, args := DEFAULT, null;
    }

    /** `get_arg`: moves to the value of an option, or fails with the help text. */
    method GetArg(reader: CommandReader) returns (value: Option<string>)
      modifies `config, reader
      ensures reader.position == if old(reader.position) < |reader.argv| then old(reader.position) + 1
                                 else old(reader.position)
      ensures value == if reader.position < |reader.argv| then Some(reader.argv[reader.position]) else None
      ensures config == if value.Some? then old(config) else old(config).(cmd := ShowHelp, failed := true)
    {
      var hasNext := reader.Next();
      if hasNext {
        var current := reader.Current();
        return Some(current);
      }
      config := config.(cmd := ShowHelp, failed := true);
      return None;
    }

    /** The value branch of one option of the loop. */
    method TakeOption(option: string, reader: CommandReader) returns (r: Result<()>)
      requires TakesValue(option) && reader.position < |reader.argv|
      modifies `config, reader
      ensures reader.position == old(reader.position) + 1
      ensures var i := reader.position;
              if i < |reader.argv| then
                match WithValue(old(config), option, reader.argv[i])
                case Throw => r == Throw
                case Ok(c) => r == Ok(()) && config == c
              else r == Ok(()) && config == old(config).(cmd := ShowHelp, failed := true)
      ensures r.Ok? && reader.position < |reader.argv| ==> config.failed == old(config.failed)
    {
      hide Stoi, ToLower, TakesValue;
      var value := GetArg(reader);
      if value.Some? {
        var c :- WithValue(config, option, value.value);
        config := c;
      }
      return Ok(());
    }

    /**
     The loop of the constructor.  The capacity always suffices, and the reader is never asked for an argument beyond
     the last.
     */
    method ReadArguments(argv: seq<string>) returns (r: Result<()>)
      requires argv != [] && config == DEFAULT
      modifies this
      ensures r.Ok? <==> Scan(argv, 1, DEFAULT).Ok?
      ensures r.Ok? ==> config == Scan(argv, 1, DEFAULT).value
      ensures r.Ok? ==> args != null && args.Valid() && args.Contents() == [argv[0]] + PassedOn(argv, 1)
    {
      hide Stoi, ToLower, IsFlag, TakesValue, WithValue, Scan, PassedOn, Reading;
      var list := new Arguments(argv[0], |argv|);
      args := list;
      var reader := new CommandReader(argv);
      ReadingStarts(argv);
      while true
        invariant reader.position <= |argv| && reader.argv == argv && fresh(reader)
        invariant args == list && list.Valid() && fresh(list) && fresh(list.argv) && list.capacity == |argv|
        invariant !config.failed ==> reader.position < |argv| && list.argc <= reader.position + 1
        invariant Reading(argv, list.Contents(), reader.position + 1, config)
        decreases |argv| - reader.position, !config.failed
      {
        if config.failed {
          ReadingEnds(argv, list.Contents(), reader.position + 1, config);
          break;
        }
        var hasNext := reader.Next();
        if !hasNext {
          ReadingEnds(argv, list.Contents(), reader.position, config);
          break;
        }
        var arg := reader.Current();
        if IsFlag(arg) {
          ReadingFlag(argv, list.Contents(), reader.position, config);
          config := WithFlag(config, arg);
        } else if TakesValue(arg) {
          if reader.position + 1 < |argv| {
            ReadingValue(argv, list.Contents(), reader.position, config);
          } else {
            ReadingMissing(argv, list.Contents(), reader.position, config);
          }
          var taken :- TakeOption(arg, reader);
        } else {
          ReadingOther(argv, list.Contents(), reader.position, config);
          var pushed := list.Push(arg);
          assert pushed.Ok?;
        }
      }
      return Ok(());
    }

    /** The whole constructor: every setting and the list passed on are what the command line means. */
    method Load(argv: seq<string>) returns (r: Result<()>)
      requires argv != [] && config == DEFAULT
      modifies this
      ensures r.Throw? <==> exists i :: GivesBadNumber(argv, i)
      ensures r.Ok? ==> Meant(argv, config)
      ensures r.Ok? ==> args != null && args.Valid() && args.Contents() == [argv[0]] + Foreign(argv, |argv|)
    {
      BadNumbers(argv, 1);
      ThrowsIffBadNumber(argv, 1, DEFAULT);
      CommandLineMeaning(argv);
      PassedOnIsForeign(argv, 1);
      assert Foreign(argv, 1) + PassedOn(argv, 1) == PassedOn(argv, 1);
      hide Scan, PassedOn, Foreign, Meant, NumbersRead, GivesBadNumber, Verified;
      var done :- ReadArguments(argv);
      config := Verified(config);
      return Ok(());
    }
  }
}
