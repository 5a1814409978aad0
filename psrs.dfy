/** src/psrs.c: its private copies of sizet_convert and unsigned_convert,
    and the bookkeeping of argument_parse that decides whether all three
    required flags (-l, -r, -t) were supplied.

    getopt_long is not modelled: the options it returns, one per call, are
    given as a sequence of Opt values, each with its optarg. usage_show
    prints to stderr and calls exit(EXIT_FAILURE); it is modelled as the
    outcome UsageExit carrying the message it would print (None for NULL). */
module Psrs {
  import opened CTypes
  import opened Convert

  /** psrs.c's sizet_convert. Its "no digits" test is `0 == result &&
      endptr == candidate`; it behaves exactly as convert.c's. */
  function PsrsSizetConvert(candidate: string): (r: Result<nat>)
    ensures r == SizetConvert(candidate)
  {
    var p := Strtoul(candidate, UINTMAX_MAX);
    if UINTMAX_MAX == p.value && p.erange then Failed(ERANGE)
    else if 0 == p.value && p.end == 0 then Failed(NoError)
    else
      var temp := ToSizeT(p.value);
      if temp == p.value then Written(temp) else Failed(ERANGE)
  }

  /** psrs.c's unsigned_convert. It tests strtoul's result against
      UINTMAX_MAX, equal to ULONG_MAX on LP64, so it behaves exactly as
      convert.c's. */
  function PsrsUnsignedConvert(candidate: string): (r: Result<nat>)
    ensures r == UnsignedConvert(candidate)
  {
    var p := Strtoul(candidate, ULONG_MAX);
    if UINTMAX_MAX == p.value && p.erange then Failed(ERANGE)
    else if 0 == p.value && p.end == 0 then Failed(NoError)
    else
      var temp := ToCUnsigned(p.value);
      if temp == p.value then Written(temp) else Failed(ERANGE)
  }

  /** The fields of `struct argument` that argument_parse fills in. */
  class Argument {
    var length: nat
    var run: nat
    var thread: nat

    constructor ()
    {
    }
  }

  /** One value returned by getopt_long for OPT_STR ":hl:r:t:". Help stands
      for 'h' and for any other value the switch sends to `default`. */
  datatype Opt =
    | FlagSet                 // 0: a long option that stored into a flag
    | Length(arg: string)     // 'l'
    | Run(arg: string)        // 'r'
    | Thread(arg: string)     // 't'
    | Unknown                 // '?'
    | MissingArgument         // ':'
    | Help

  /** How argument_parse ends: returning 0, having exited through
      usage_show with a message (or none), or returning -1 with errno. */
  datatype ParseOutcome = Parsed | UsageExit(message: Option<string>) | Rejected(errno: Errno)

  const LENGTH_MESSAGE := "Length is too large or not valid"
  const RUN_MESSAGE := "Run is too large or not valid"
  const THREAD_MESSAGE := "Thread is too large or not valid"
  const UNKNOWN_MESSAGE := "There is no such option"
  const MISSING_MESSAGE := "Missing argument"
  const ABSENT_MESSAGE := "Length, run, thread argument must be supplied"

  // ---------------------------------------------------------------------
  // The option loop as a function of the options seen so far.

  /** The values stored by the flags seen so far; Some exactly when the flag's
      check[] entry is set. */
  datatype Seen = Seen(length: Option<nat>, run: Option<nat>, thread: Option<nat>)

  /** The state after a prefix of the options: what was seen, and the
      usage_show call that ended the loop, if any. */
  datatype Progress = Progress(seen: Seen, exit: Option<ParseOutcome>)

  /** The effect of one getopt_long result. After usage_show nothing
      changes; a result that ends the loop ends it in usage_show; and a
      result changes at most the check[] entry of its own flag. */
  function Step(p: Progress, o: Opt): (r: Progress)
    ensures p.exit.Some? ==> r == p
    ensures p.exit.None? && r.exit.Some? ==> r.exit.value.UsageExit?
    ensures r.seen.length == p.seen.length || o.Length?
    ensures r.seen.run == p.seen.run || o.Run?
    ensures r.seen.thread == p.seen.thread || o.Thread?
  {
    if p.exit.Some? then p
    else
      match o
      case FlagSet => p
      case Length(arg) =>
        var c := PsrsSizetConvert(arg);
        if c.Failed? then Progress(p.seen, Some(UsageExit(Some(LENGTH_MESSAGE))))
        else Progress(p.seen.(length := Some(c.value)), None)
      case Run(arg) =>
        var c := PsrsSizetConvert(arg);
        if c.Failed? then Progress(p.seen, Some(UsageExit(Some(RUN_MESSAGE))))
        else Progress(p.seen.(run := Some(c.value)), None)
      case Thread(arg) =>
        var c := PsrsUnsignedConvert(arg);
        if c.Failed? then Progress(p.seen, Some(UsageExit(Some(THREAD_MESSAGE))))
        else Progress(p.seen.(thread := Some(c.value)), None)
      case Unknown => Progress(p.seen, Some(UsageExit(Some(UNKNOWN_MESSAGE))))
      case MissingArgument => Progress(p.seen, Some(UsageExit(Some(MISSING_MESSAGE))))
      case Help => Progress(p.seen, Some(UsageExit(None)))
  }

  /** The state after the loop has seen opts: only usage_show ends it. */
  function Scanned(opts: seq<Opt>): (r: Progress)
    ensures r.exit.Some? ==> r.exit.value.UsageExit?
    decreases |opts|
  {
    if opts == [] then Progress(Seen(None, None, None), None)
    else Step(Scanned(opts[..|opts| - 1]), opts[|opts| - 1])
  }

  /** The outcome once argument_parse's entry checks have passed: never
      the -1 return, and 0 only when the loop ran to its end. */
  function Outcome(opts: seq<Opt>): (r: ParseOutcome)
    ensures !r.Rejected?
    ensures r == Parsed ==> Scanned(opts).exit.None?
  {
    var p := Scanned(opts);
    if p.exit.Some? then p.exit.value
    else if p.seen.length.Some? && p.seen.run.Some? && p.seen.thread.Some? then Parsed
    else UsageExit(Some(ABSENT_MESSAGE))
  }

  /** One option that cannot end the loop: it is 0, or a flag whose
      argument converts. */
  predicate Accepted(o: Opt) {
    match o
    case FlagSet => true
    case Length(arg) => PsrsSizetConvert(arg).Written?
    case Run(arg) => PsrsSizetConvert(arg).Written?
    case Thread(arg) => PsrsUnsignedConvert(arg).Written?
    case _ => false
  }

  /** The loop runs to its end exactly when every option is accepted; then
      each check[] entry is set exactly when its flag occurs. */
  lemma {:induction false} ScannedNoExit(opts: seq<Opt>)
    ensures Scanned(opts).exit.Some? ==> Scanned(opts).exit.value.UsageExit?
    ensures Scanned(opts).exit.None? <==> forall i :: 0 <= i < |opts| ==> Accepted(opts[i])
    ensures Scanned(opts).exit.None? ==>
      (Scanned(opts).seen.length.Some? <==> exists i :: 0 <= i < |opts| && opts[i].Length?) &&
      (Scanned(opts).seen.run.Some? <==> exists i :: 0 <= i < |opts| && opts[i].Run?) &&
      (Scanned(opts).seen.thread.Some? <==> exists i :: 0 <= i < |opts| && opts[i].Thread?)
    decreases |opts|
  {
    if opts != [] {
      var init, last := opts[..|opts| - 1], opts[|opts| - 1];
      ScannedNoExit(init);
      StepNoExit(Scanned(init), last);
      assert forall i :: 0 <= i < |init| ==> init[i] == opts[i];
      assert opts == init + [last];
    }
  }

  /** One step keeps the loop running exactly when the option is accepted,
      and then sets the check[] entry of its own flag only. */
  lemma StepNoExit(p: Progress, o: Opt)
    ensures p.exit.None? && Step(p, o).exit.Some? ==> Step(p, o).exit.value.UsageExit?
    ensures Step(p, o).exit.None? <==> p.exit.None? && Accepted(o)
    ensures Step(p, o).exit.None? ==>
      (Step(p, o).seen.length.Some? <==> p.seen.length.Some? || o.Length?) &&
      (Step(p, o).seen.run.Some? <==> p.seen.run.Some? || o.Run?) &&
      (Step(p, o).seen.thread.Some? <==> p.seen.thread.Some? || o.Thread?)
  {
  }

  /** argument_parse completes successfully exactly when every option is
      accepted and each of -l, -r and -t occurs at least once. */
  lemma ParsedIff(opts: seq<Opt>)
    ensures Outcome(opts) == Parsed <==>
      (forall i :: 0 <= i < |opts| ==> Accepted(opts[i])) &&
      (exists i :: 0 <= i < |opts| && opts[i].Length?) &&
      (exists i :: 0 <= i < |opts| && opts[i].Run?) &&
      (exists i :: 0 <= i < |opts| && opts[i].Thread?)
  {
    ScannedNoExit(opts);
  }

  /** The three required flags, each naming its check[] entry. */
  datatype Flag = LengthFlag | RunFlag | ThreadFlag

  predicate Sets(o: Opt, f: Flag) {
    match f
    case LengthFlag => o.Length?
    case RunFlag => o.Run?
    case ThreadFlag => o.Thread?
  }

  /** The value stored for a flag so far. */
  function Stored(s: Seen, f: Flag): Option<nat> {
    match f
    case LengthFlag => s.length
    case RunFlag => s.run
    case ThreadFlag => s.thread
  }

  /** The conversion the switch applies to a flag's optarg. */
  function ConvertedArg(o: Opt): Result<nat>
    requires o.Length? || o.Run? || o.Thread?
  {
    match o
    case Length(arg) => PsrsSizetConvert(arg)
    case Run(arg) => PsrsSizetConvert(arg)
    case Thread(arg) => PsrsUnsignedConvert(arg)
  }

  /** When the loop runs to its end, each field holds the value converted
      from the last occurrence of its flag. */
  lemma {:induction false} ScannedKeepsLast(opts: seq<Opt>, i: nat, f: Flag)
    requires Scanned(opts).exit.None?
    requires i < |opts| && Sets(opts[i], f)
    requires forall j :: i < j < |opts| ==> !Sets(opts[j], f)
    ensures ConvertedArg(opts[i]).Written? && Stored(Scanned(opts).seen, f) == Some(ConvertedArg(opts[i]).value)
    decreases |opts|
  {
    var init, last := opts[..|opts| - 1], opts[|opts| - 1];
    assert Scanned(opts) == Step(Scanned(init), last);
    assert Scanned(init).exit.None?;
    if i < |opts| - 1 {
      assert !Sets(last, f);
      assert Stored(Scanned(opts).seen, f) == Stored(Scanned(init).seen, f);
      assert forall j :: i < j < |init| ==> init[j] == opts[j];
      ScannedKeepsLast(init, i, f);
    }
  }

  // ---------------------------------------------------------------------
  // The entry checks.

  /** The entry checks as written: strdup(argv[0]) runs before the checks,
      which is undefined behaviour when argv is NULL, and also when argc is
      0, since argv[argc] is then the null pointer argv[0]. */
  datatype Entry = Proceed | Reject | Undefined

  function EntryAsWritten(resultGiven: bool, argc: nat, argvGiven: bool): (r: Entry)
    ensures r != Undefined <==> argvGiven && argc > 0
    ensures r != Undefined ==> (r == Reject <==> !resultGiven)
  {
    if !argvGiven || argc == 0 then Undefined
    else if !resultGiven then Reject
    else Proceed
  }

  /** With a NULL argv or argc == 0 the guard is never reached; the intended
      EINVAL rejection is not what happens. */
  lemma EntryAsWrittenMissesGuard()
    ensures EntryAsWritten(true, 0, true) == Undefined
    ensures EntryAsWritten(true, 1, false) == Undefined
  {
  }

  /** argument_parse with its checks ahead of the strdup: a NULL result,
      argc == 0 or a NULL argv gives -1 with EINVAL and stores nothing;
      otherwise the outcome is that of the option loop and the fold of
      check[], and each field holds the last value its flag stored. */
  method ArgumentParse(result: Argument?, argc: nat, argvGiven: bool, opts: seq<Opt>)
    returns (r: ParseOutcome)
    modifies result
    ensures result == null || argc == 0 || !argvGiven ==>
      r == Rejected(EINVAL) && (result != null ==> unchanged(result))
    ensures result != null && argc != 0 && argvGiven ==>
      var seen := Scanned(opts).seen;
      && r == Outcome(opts)
      && result.length == (if seen.length.Some? then seen.length.value else old(result.length))
      && result.run == (if seen.run.Some? then seen.run.value else old(result.run))
      && result.thread == (if seen.thread.Some? then seen.thread.value else old(result.thread))
  {
    if result == null || argc == 0 || !argvGiven {
      return Rejected(EINVAL);
    }
    // check[LENGTH], check[RUN], check[THREAD]
    var check := new bool[3](_ => false);
    ghost var p := Scanned([]);
    var i := 0;
    while i < |opts|
      invariant 0 <= i <= |opts|
      invariant p == Scanned(opts[..i]) && p.exit.None?
      invariant Mirrors(result, check, p.seen, old(result.length), old(result.run), old(result.thread))
    {
      assert opts[..i + 1][..i] == opts[..i];
      var exit := SwitchOption(result, check, opts[i], p, old(result.length), old(result.run), old(result.thread));
      p := Step(p, opts[i]);
      assert p == Scanned(opts[..i + 1]);
      if exit.Some? {
        ScannedAfterExit(opts, i + 1);
        assert Scanned(opts) == p;
        return exit.value;
      }
      i := i + 1;
    }
    assert opts[..i] == opts;
    var allArgumentPresent := true;
    for k := 0 to 3
      invariant allArgumentPresent == forall j :: 0 <= j < k ==> check[j]
    {
      allArgumentPresent := allArgumentPresent && check[k];
    }
    if !allArgumentPresent {
      return UsageExit(Some(ABSENT_MESSAGE));
    }
    return Parsed;
  }

  /** check[] and the fields of `result` agree with what the flags stored:
      an entry is set exactly when its flag was seen, and a field holds the
      value its flag stored, or its old value when it was not seen. */
  ghost predicate Mirrors(result: Argument, check: array<bool>, seen: Seen, length0: nat, run0: nat, thread0: nat)
    reads result, check
  {
    && check.Length == 3
    && check[0] == seen.length.Some? && check[1] == seen.run.Some? && check[2] == seen.thread.Some?
    && result.length == (if seen.length.Some? then seen.length.value else length0)
    && result.run == (if seen.run.Some? then seen.run.value else run0)
    && result.thread == (if seen.thread.Some? then seen.thread.value else thread0)
  }

  /** The body of the getopt loop: the switch on one option. Some(outcome)
      is a call of usage_show, which does not return. */
  method SwitchOption(result: Argument, check: array<bool>, o: Opt, ghost p: Progress,
                      ghost length0: nat, ghost run0: nat, ghost thread0: nat)
    returns (exit: Option<ParseOutcome>)
    requires p.exit.None? && Mirrors(result, check, p.seen, length0, run0, thread0)
    modifies result, check
    ensures exit == Step(p, o).exit
    ensures Mirrors(result, check, Step(p, o).seen, length0, run0, thread0)
  {
    match o {
      case FlagSet =>
        exit := None;
      case Length(arg) =>
        var c := PsrsSizetConvert(arg);
        if c.Failed? {
          return Some(UsageExit(Some(LENGTH_MESSAGE)));
        }
        result.length := c.value;
        check[0] := true;
        exit := None;
      case Run(arg) =>
        var c := PsrsSizetConvert(arg);
        if c.Failed? {
          return Some(UsageExit(Some(RUN_MESSAGE)));
        }
        result.run := c.value;
        check[1] := true;
        exit := None;
      case Thread(arg) =>
        var c := PsrsUnsignedConvert(arg);
        if c.Failed? {
          return Some(UsageExit(Some(THREAD_MESSAGE)));
        }
        result.thread := c.value;
        check[2] := true;
        exit := None;
      case Unknown =>
        exit := Some(UsageExit(Some(UNKNOWN_MESSAGE)));
      case MissingArgument =>
        exit := Some(UsageExit(Some(MISSING_MESSAGE)));
      case Help =>
        exit := Some(UsageExit(None));
    }
  }

  /** Once usage_show has been called, later options change nothing. */
  lemma {:induction false} ScannedAfterExit(opts: seq<Opt>, n: nat)
    requires n <= |opts| && Scanned(opts[..n]).exit.Some?
    ensures Scanned(opts) == Scanned(opts[..n])
    decreases |opts| - n
  {
    if n < |opts| {
      assert opts[..n + 1][..n] == opts[..n];
      ScannedAfterExit(opts, n + 1);
    } else {
      assert opts[..n] == opts;
    }
  }
}
