/** The command-line handling of the annealing driver (fly/fly_amosa.c):
    the `getopt` loop of ParseCommandLine that checks and stores each option
    in the file's globals, the saved copy of the command line, and the pair
    GetOptions / RestoreOptions that writes the options into a state record
    and reads them back when a run is restored.

    The serial build is modelled (no MPI options). The derivative and
    solver functions the globals hold are named by datatypes, each with one
    extra value for a function the code does not know. */
module FlyAmosa {
  import opened Util
  import CText

  /* ----------------------------------------------------------------------
     The values the options choose between
     ---------------------------------------------------------------------- */

  /** The ODE solvers; `OtherSolver` stands for any other solver function. */
  datatype Solver = Adams | BaDe | BuSt | Euler | Heun | Milne | Meuler
                  | Rk2 | Rk4 | Rkck | Rkf | SoDe | Krylov | OtherSolver

  /** The derivative functions; `OtherDeriv` stands for any other derivative function. */
  datatype Deriv = DvdtOrig | DvdtSqrt | OtherDeriv

  /** The regulation-expression function g(u) chosen by `-g`. */
  datatype GofU = Sqrt | Tanh | Exp | Hvs | Kolja

  /** The stopping criterion chosen by `-e`. */
  datatype StopStyle = ProportionalFreeze | AbsoluteFreeze | AbsoluteEnergy

  /** Why the program stops instead of running. */
  datatype Reason =
    | Help | Version | Usage
    | BadValue(opt: char)        // the argument of an option is out of range
    | TooLarge(opt: char)        // the argument is above its maximum
    | Unsupported(opt: char)     // an option the serial build refuses
    | MissingArgument | Unrecognized
    | QuenchWithEquil            // -Q together with -E (or -N)
    | UnknownDeriv | UnknownSolver
    | RestoreLandscape | RestoreEquil

  /** The option globals: the file statics of fly_amosa.c and the globals
      it shares with the rest of the annealer. Flags are C `int`s. */
  datatype Settings = Settings(
    inname: string, outname: string,
    pd: Deriv, ps: Solver, gofu: GofU, stopFlag: StopStyle,
    accuracy: real, stepsize: real, precision: int, scoreMethod: int,
    captions: int, printFreq: int, stateWrite: int,
    timeFlag: int, logFlag: int, nofileFlag: int, prolixFlag: int,
    landscapeFlag: int, bench: int, debug: int, equil: int, quenchit: int,
    olddivstyle: int)

  /** The library conversions the option code calls (`atoi`, `atof`,
      `strtol`) and the two maxima the checks compare against. */
  datatype Conv = Conv(atoi: string -> int, atof: string -> real, strtol: string -> int,
                       maxPrecision: int, maxStepsize: real)

  /** `LONG_MAX` of a 64-bit `long`: what `strtol` returns on overflow. */
  const LongMax: int := 0x7fff_ffff_ffff_ffff

  /* ----------------------------------------------------------------------
     Name tables
     ---------------------------------------------------------------------- */

  /** The names `-s` accepts. */
  const SolverFlags: set<string> :=
    {"a", "bd", "bs", "e", "h", "mi", "m", "me", "r4", "r", "r2", "rck", "rf", "sd", "kr"}

  /** The solver a `-s` argument selects (fly/fly_amosa.c:381-411). */
  function SolverFlag(name: string): (r: Option<Solver>)
    ensures r.Some? <==> name in SolverFlags
    ensures r != Some(OtherSolver)
  {
    if name == "a" then Some(Adams)
    else if name == "bd" then Some(BaDe)
    else if name == "bs" then Some(BuSt)
    else if name == "e" then Some(Euler)
    else if name == "h" then Some(Heun)
    else if name == "mi" || name == "m" then Some(Milne)
    else if name == "me" then Some(Meuler)
    else if name == "r4" || name == "r" then Some(Rk4)
    else if name == "r2" then Some(Rk2)
    else if name == "rck" then Some(Rkck)
    else if name == "rf" then Some(Rkf)
    else if name == "sd" then Some(SoDe)
    else if name == "kr" then Some(Krylov)
    else None
  }

  /** A `-s` name for each known solver. */
  function FlagOf(s: Solver): string
  {
    match s
    case Adams => "a"
    case BaDe => "bd"
    case BuSt => "bs"
    case Euler => "e"
    case Heun => "h"
    case Milne => "mi"
    case Meuler => "me"
    case Rk2 => "r2"
    case Rk4 => "r4"
    case Rkck => "rck"
    case Rkf => "rf"
    case SoDe => "sd"
    case Krylov => "kr"
    case OtherSolver => ""
  }

  /** Every known solver can be chosen with `-s`; the short aliases `m`
      and `r` choose Milne and Rk4. */
  lemma SolverFlagsCover(s: Solver)
    ensures s != OtherSolver ==> FlagOf(s) in SolverFlags && SolverFlag(FlagOf(s)) == Some(s)
    ensures SolverFlag("m") == Some(Milne) && SolverFlag("r") == Some(Rk4)
  {
  }

  /** The names GetOptions saves and RestoreOptions reads. */
  const SolverNames: set<string> :=
    {"Adams", "BaDe", "BuSt", "Euler", "Heun", "Milne", "Meuler", "Rk2", "Rk4",
     "Rkck", "Rkf", "SoDe", "Krylov"}

  /** The name GetOptions writes for a solver (fly/fly_amosa.c:985-1014). */
  function SolverName(s: Solver): (r: Option<string>)
    ensures r.Some? <==> s != OtherSolver
    ensures r.Some? ==> r.value in SolverNames
  {
    match s
    case Adams => Some("Adams")
    case BaDe => Some("BaDe")
    case BuSt => Some("BuSt")
    case Euler => Some("Euler")
    case Heun => Some("Heun")
    case Milne => Some("Milne")
    case Meuler => Some("Meuler")
    case Rk2 => Some("Rk2")
    case Rk4 => Some("Rk4")
    case Rkck => Some("Rkck")
    case Rkf => Some("Rkf")
    case SoDe => Some("SoDe")
    case Krylov => Some("Krylov")
    case OtherSolver => None
  }

  /** The solver RestoreOptions sets for a saved name
      (fly/fly_amosa.c:1065-1096); `"BaDe"` restores BuSt. */
  function SolverNamed(name: string): (r: Option<Solver>)
    ensures r.Some? <==> name in SolverNames
    ensures r != Some(OtherSolver) && r != Some(BaDe)
  {
    if name == "Adams" then Some(Adams)
    else if name == "BaDe" then Some(BuSt)
    else if name == "BuSt" then Some(BuSt)
    else if name == "Euler" then Some(Euler)
    else if name == "Heun" then Some(Heun)
    else if name == "Milne" then Some(Milne)
    else if name == "Meuler" then Some(Meuler)
    else if name == "Rk2" then Some(Rk2)
    else if name == "Rk4" then Some(Rk4)
    else if name == "Rkck" then Some(Rkck)
    else if name == "Rkf" then Some(Rkf)
    else if name == "SoDe" then Some(SoDe)
    else if name == "Krylov" then Some(Krylov)
    else None
  }

  /** The solver a run gets back after saving and restoring. */
  function Restored(s: Solver): Solver
  {
    if s == BaDe then BuSt else s
  }

  /** Saving then restoring a solver name gives back the solver, except
      that BaDe comes back as BuSt. */
  lemma SolverNameRoundTrip(s: Solver)
    requires s != OtherSolver
    ensures SolverNamed(SolverName(s).value) == Some(Restored(s))
    ensures SolverNamed(SolverName(s).value) == Some(s) <==> s != BaDe
  {
  }

  /** Distinct solvers are saved under distinct names. */
  lemma SolverNameInjective(s: Solver, t: Solver)
    requires SolverName(s).Some? && SolverName(s) == SolverName(t)
    ensures s == t
  {
  }

  /** The derivative name GetOptions writes (fly/fly_amosa.c:978-983). */
  function DerivName(d: Deriv): (r: Option<string>)
    ensures r.Some? <==> d != OtherDeriv
  {
    match d
    case DvdtOrig => Some("DvdtOrig")
    case DvdtSqrt => Some("Dvdt_sqrt")
    case OtherDeriv => None
  }

  /** The derivative function RestoreOptions sets for a saved name
      (fly/fly_amosa.c:1058-1063). */
  function DerivNamed(name: string): (r: Option<Deriv>)
    ensures r.Some? <==> name == "DvdtOrig" || name == "Dvdt_sqrt"
    ensures r != Some(OtherDeriv)
  {
    if name == "DvdtOrig" then Some(DvdtOrig)
    else if name == "Dvdt_sqrt" then Some(DvdtSqrt)
    else None
  }

  /** Derivative names round-trip exactly. */
  lemma DerivNameRoundTrip(d: Deriv)
    requires d != OtherDeriv
    ensures DerivNamed(DerivName(d).value) == Some(d)
  {
  }

  /** The g(u) a `-g` argument selects (fly/fly_amosa.c:316-329). */
  function GofUFlag(name: string): (r: Option<GofU>)
    ensures r.Some? <==> name in {"s", "t", "e", "h", "k"}
  {
    if name == "s" then Some(Sqrt)
    else if name == "t" then Some(Tanh)
    else if name == "e" then Some(Exp)
    else if name == "h" then Some(Hvs)
    else if name == "k" then Some(Kolja)
    else None
  }

  /** The criterion an `-e` argument selects (fly/fly_amosa.c:295-304). */
  function StopCriterion(name: string): (r: Option<StopStyle>)
    ensures r.Some? <==> name in {"pfreeze", "afreeze", "abs"}
    ensures r == Some(ProportionalFreeze) <==> name == "pfreeze"
    ensures r == Some(AbsoluteFreeze) <==> name == "afreeze"
    ensures r == Some(AbsoluteEnergy) <==> name == "abs"
  {
    if name == "pfreeze" then Some(ProportionalFreeze)
    else if name == "afreeze" then Some(AbsoluteFreeze)
    else if name == "abs" then Some(AbsoluteEnergy)
    else None
  }

  /* ----------------------------------------------------------------------
     One option of the getopt loop
     ---------------------------------------------------------------------- */

  /** What one option does: the settings it leaves, or the exit it causes. */
  datatype Step = Next(s: Settings) | Exit(status: int, why: Reason)

  /** The `switch` of ParseCommandLine for one option character `c` with
      argument `arg` (fly/fly_amosa.c:250-461). `':'` and `'?'` are what
      getopt returns for a missing argument and an unknown option. Only -h
      and -v exit with status 0, and no option changes the input file
      name. */
  function Apply(s: Settings, c: char, arg: string, conv: Conv): (r: Step)
    ensures r.Exit? && r.status == 0 <==> c == 'h' || c == 'v'
    ensures r.Next? ==> r.s.inname == s.inname
  {
    match c
    case 'a' =>
      var acc := conv.atof(arg);
      if acc <= 0.0 then Exit(1, BadValue('a')) else Next(s.(accuracy := acc))
    case 'b' =>
      var w := conv.strtol(arg);
      if w < 1 then Exit(1, BadValue('b'))
      else if w == LongMax then Exit(1, TooLarge('b'))
      else Next(s.(stateWrite := w))
    case 'B' => Next(s.(bench := 1, timeFlag := 1))
    case 'c' => Exit(1, Unsupported('c'))
    case 'C' => Exit(1, Unsupported('C'))
    case 'D' => Next(s.(debug := 1))
    case 'e' =>
      (match StopCriterion(arg)
       case Some(f) => Next(s.(stopFlag := f))
       case None => Exit(1, BadValue('e')))
    case 'E' => Next(s.(equil := 1))
    case 'f' =>
      var p := conv.atoi(arg);
      if p < 0 then Exit(1, BadValue('f'))
      else if p > conv.maxPrecision then Exit(1, TooLarge('f'))
      else Next(s.(precision := p))
    case 'g' =>
      (match GofUFlag(arg)
       case Some(g) => Next(s.(pd := DvdtOrig, gofu := g))
       case None => Exit(1, BadValue('g')))
    case 'h' => Exit(0, Help)
    case 'i' =>
      var st := conv.atof(arg);
      if st < 0.0 then Exit(1, BadValue('i'))
      else if st == 0.0 then Exit(1, BadValue('i'))
      else if st > conv.maxStepsize then Exit(1, TooLarge('i'))
      else Next(s.(stepsize := st))
    case 'l' => Next(s.(logFlag := 1))
    case 'L' => Exit(1, Unsupported('L'))
    case 'm' =>
      Next(s.(scoreMethod := if arg == "w" then 0 else if arg == "o" then 1 else s.scoreMethod))
    case 'n' => Next(s.(nofileFlag := 1))
    case 'N' => Next(s.(equil := 1, landscapeFlag := 1))
    case 'o' => Next(s.(olddivstyle := 1))
    case 'p' => Next(s.(prolixFlag := 1))
    case 'Q' => Next(s.(quenchit := 1))
    case 'r' => Exit(1, Unsupported('r'))
    case 's' =>
      (match SolverFlag(arg)
       case Some(solver) => Next(s.(ps := solver))
       case None => Exit(1, BadValue('s')))
    case 'S' => Exit(1, Unsupported('S'))
    case 't' => Next(s.(timeFlag := 1))
    case 'T' => Exit(1, Unsupported('T'))
    case 'v' => Exit(0, Version)
    case 'w' => Next(s.(outname := arg))
    case 'W' => Exit(1, Unsupported('W'))
    case 'y' =>
      var f := conv.strtol(arg);
      if f < 1 then Exit(1, BadValue('y'))
      else if f == LongMax then Exit(1, TooLarge('y'))
      else Next(s.(printFreq := f))
    case ':' => Exit(1, MissingArgument)
    case _ => Exit(1, Unrecognized)
  }

  /** `-s` accepts exactly the solver names of its table, and changes only
      the solver, to a known one. */
  lemma SolverOptionChecked(s: Settings, arg: string, conv: Conv)
    ensures Apply(s, 's', arg, conv).Next? <==> arg in SolverFlags
    ensures Apply(s, 's', arg, conv).Next? ==>
              exists p :: p != OtherSolver && Apply(s, 's', arg, conv).s == s.(ps := p)
  {
    if arg in SolverFlags {
      var p := SolverFlag(arg).value;
      assert Apply(s, 's', arg, conv).s == s.(ps := p);
    }
  }

  /** `-e` accepts only pfreeze, afreeze and abs; `-m` never fails, sets 0
      for `w`, 1 for `o` and otherwise keeps the method. */
  lemma StopAndMethodOptions(s: Settings, arg: string, conv: Conv)
    ensures Apply(s, 'e', arg, conv).Next? <==> arg in {"pfreeze", "afreeze", "abs"}
    ensures Apply(s, 'm', arg, conv).Next?
    ensures Apply(s, 'm', arg, conv).s.scoreMethod == (if arg == "w" then 0 else if arg == "o" then 1 else s.scoreMethod)
    ensures Apply(s, 'm', arg, conv).s.(scoreMethod := s.scoreMethod) == s
  {
  }

  /** The numeric checks: `-f` wants `0 <= precision <= max`, `-i` wants
      `0 < stepsize <= max`, `-b` and `-y` want at least 1 and not the
      overflow value `LONG_MAX`. */
  lemma NumericOptionsChecked(s: Settings, arg: string, conv: Conv)
    ensures Apply(s, 'f', arg, conv).Next? <==> 0 <= conv.atoi(arg) <= conv.maxPrecision
    ensures Apply(s, 'i', arg, conv).Next? <==> 0.0 < conv.atof(arg) <= conv.maxStepsize
    ensures Apply(s, 'b', arg, conv).Next? <==> 1 <= conv.strtol(arg) && conv.strtol(arg) != LongMax
    ensures Apply(s, 'y', arg, conv).Next? <==> 1 <= conv.strtol(arg) && conv.strtol(arg) != LongMax
  {
  }

  /** The real and precision values within their checked ranges. */
  predicate ValuesInRange(s: Settings, conv: Conv)
  {
    && s.accuracy > 0.0
    && 0 <= s.precision <= conv.maxPrecision
    && 0.0 < s.stepsize <= conv.maxStepsize
  }

  /** The state-file and log frequencies within what `-b` and `-y` allow. */
  predicate FreqsInRange(s: Settings)
  {
    && 1 <= s.stateWrite && s.stateWrite != LongMax
    && 1 <= s.printFreq && s.printFreq != LongMax
  }

  /** A score method of 0 or 1, and known solver and derivative functions. */
  predicate ChoicesKnown(s: Settings)
  {
    && (s.scoreMethod == 0 || s.scoreMethod == 1)
    && s.ps != OtherSolver && s.pd != OtherDeriv
  }

  /** Values every successful option leaves within its checked range. */
  predicate InRange(s: Settings, conv: Conv)
  {
    ValuesInRange(s, conv) && FreqsInRange(s) && ChoicesKnown(s)
  }

  lemma ApplyKeepsValues(s: Settings, c: char, arg: string, conv: Conv)
    requires ValuesInRange(s, conv)
    ensures Apply(s, c, arg, conv).Next? ==> ValuesInRange(Apply(s, c, arg, conv).s, conv)
  {
  }

  lemma ApplyKeepsFreqs(s: Settings, c: char, arg: string, conv: Conv)
    requires FreqsInRange(s)
    ensures Apply(s, c, arg, conv).Next? ==> FreqsInRange(Apply(s, c, arg, conv).s)
  {
  }

  lemma ApplyKeepsChoices(s: Settings, c: char, arg: string, conv: Conv)
    requires ChoicesKnown(s)
    ensures Apply(s, c, arg, conv).Next? ==> ChoicesKnown(Apply(s, c, arg, conv).s)
  {
  }

  /** Each option keeps the checked values in range. */
  lemma ApplyKeepsRange(s: Settings, c: char, arg: string, conv: Conv)
    requires InRange(s, conv)
    ensures Apply(s, c, arg, conv).Next? ==> InRange(Apply(s, c, arg, conv).s, conv)
  {
    ApplyKeepsValues(s, c, arg, conv);
    ApplyKeepsFreqs(s, c, arg, conv);
    ApplyKeepsChoices(s, c, arg, conv);
  }

  /* ----------------------------------------------------------------------
     The whole command line
     ---------------------------------------------------------------------- */

  /** The options in the order getopt returns them: each option character
      with its argument (empty when it takes none). */
  type Parsed = seq<(char, string)>

  /** The getopt loop: the options applied one after another until one of
      them exits. */
  function Options(s: Settings, opts: Parsed, conv: Conv): Step
    decreases |opts|
  {
    if opts == [] then Next(s)
    else
      match Apply(s, opts[0].0, opts[0].1, conv)
      case Next(t) => Options(t, opts[1..], conv)
      case Exit(status, why) => Exit(status, why)
  }

  /** A whole successful option list keeps the checked values in range. */
  lemma {:induction false} OptionsKeepRange(s: Settings, opts: Parsed, conv: Conv)
    requires InRange(s, conv)
    ensures Options(s, opts, conv).Next? ==> InRange(Options(s, opts, conv).s, conv)
    decreases |opts|
  {
    if opts != [] {
      ApplyKeepsRange(s, opts[0].0, opts[0].1, conv);
      var step := Apply(s, opts[0].0, opts[0].1, conv);
      if step.Next? {
        OptionsKeepRange(step.s, opts[1..], conv);
      }
    }
  }

  /** The values ParseCommandLine sets before reading the options
      (fly/fly_amosa.c:225-238): known solver and derivative functions
      and frequencies within what -b and -y allow; nothing else changes. */
  function Defaults(s: Settings): (r: Settings)
    ensures r.ps != OtherSolver && r.pd != OtherDeriv && FreqsInRange(r)
    ensures r.(pd := s.pd, ps := s.ps, captions := s.captions, printFreq := s.printFreq,
               stateWrite := s.stateWrite, stopFlag := s.stopFlag, timeFlag := s.timeFlag,
               logFlag := s.logFlag, nofileFlag := s.nofileFlag) == s
  {
    s.(pd := DvdtOrig, ps := Rkck, captions := 100000000, printFreq := 100, stateWrite := 1000,
       stopFlag := AbsoluteFreeze, timeFlag := 0, logFlag := 0, nofileFlag := 0)
  }

  /** What ParseCommandLine returns: the index of the first argument after
      the options, or the exit it causes. */
  datatype Outcome = Continue(optind: nat) | Stopped(status: int, why: Reason)

  /** The outcome of ParseCommandLine for the arguments `argv`, the options
      getopt found in them and the index getopt stopped at: the options,
      then the check that -Q and -E are not combined and that exactly one
      argument is left (fly/fly_amosa.c:248-475). */
  function ParseOutcome(s: Settings, argv: seq<string>, opts: Parsed, optind: nat, conv: Conv): (r: Outcome)
    ensures r.Continue? ==> |argv| == optind + 1 && r.optind == optind
    ensures r.Continue? ==> Options(Defaults(s), opts, conv).Next?
    ensures r.Continue? ==> !(Options(Defaults(s), opts, conv).s.quenchit == 1 && Options(Defaults(s), opts, conv).s.equil == 1)
  {
    match Options(Defaults(s), opts, conv)
    case Exit(status, why) => Stopped(status, why)
    case Next(t) =>
      if t.quenchit == 1 && t.equil == 1 then Stopped(1, QuenchWithEquil)
      else if |argv| - (optind - 1) != 2 then Stopped(1, Usage)
      else Continue(optind)
  }

  /** With the static initial values in range, a run that goes ahead has
      every checked option value in range. */
  lemma ParsedInRange(s: Settings, argv: seq<string>, opts: Parsed, optind: nat, conv: Conv)
    requires s.accuracy > 0.0 && 0 <= s.precision <= conv.maxPrecision
    requires 0.0 < s.stepsize <= conv.maxStepsize && (s.scoreMethod == 0 || s.scoreMethod == 1)
    requires ParseOutcome(s, argv, opts, optind, conv).Continue?
    ensures InRange(Options(Defaults(s), opts, conv).s, conv)
  {
    OptionsKeepRange(Defaults(s), opts, conv);
  }

  /** All of `argv` joined by single spaces. */
  function Spaced(args: seq<string>): string
  {
    if args == [] then []
    else if |args| == 1 then args[0]
    else args[0] + " " + Spaced(args[1..])
  }

  /** One more argument at the end. */
  lemma {:induction false} SpacedSnoc(args: seq<string>, a: string)
    ensures Spaced(args + [a]) == if args == [] then a else Spaced(args) + " " + a
  {
    if args != [] {
      assert (args + [a])[0] == args[0];
      assert (args + [a])[1..] == args[1..] + [a];
      if |args| > 1 {
        SpacedSnoc(args[1..], a);
        ConcatAssoc(args[0] + " ", Spaced(args[1..]) + " ", a);
        ConcatAssoc(args[0] + " ", Spaced(args[1..]), " ");
      } else {
        assert args[1..] + [a] == [a];
      }
    }
  }

  /** The saved command line: the arguments, space-separated, and a
      newline. */
  function ArgvLine(argv: seq<string>): string
  {
    Spaced(argv) + "\n"
  }

  /** Words: nonempty and without blank or newline. */
  predicate Word(a: string)
  {
    a != [] && ' ' !in a && '\n' !in a
  }

  /** Splitting the joined arguments at blanks gives them back. */
  lemma {:induction false} SpacedTokens(args: seq<string>)
    requires forall k :: 0 <= k < |args| ==> Word(args[k])
    ensures CText.Tokens(Spaced(args), {' '}) == args
    ensures '\n' !in Spaced(args)
  {
    if |args| == 1 {
      CText.TokensFirst(args[0], [], {' '});
      assert args[0] + [] == args[0];
    } else if |args| > 1 {
      SpacedTokens(args[1..]);
      CText.TokensCons(args[0], ' ', Spaced(args[1..]), {' '});
      assert args == [args[0]] + args[1..];
    }
  }

  /** The saved command line is one line whose blank-separated words are
      the arguments. */
  lemma ArgvLineRoundTrip(argv: seq<string>)
    requires forall k :: 0 <= k < |argv| ==> Word(argv[k])
    ensures CText.Lines(ArgvLine(argv)) == [Spaced(argv)]
    ensures CText.Tokens(Spaced(argv), {' '}) == argv
  {
    SpacedTokens(argv);
    CText.LinesCons(Spaced(argv), []);
    assert Spaced(argv) + "\n" + [] == ArgvLine(argv);
  }

  /* ----------------------------------------------------------------------
     Saving and restoring the options
     ---------------------------------------------------------------------- */

  /** The saved options (the Opts record of fly/moves.h, serial build). */
  datatype Opts = Opts(
    inname: string, outname: string, argv: string, derivfunc: string, solver: string,
    stopFlag: StopStyle, prolixFlag: int, landscapeFlag: int, timeFlag: int, logFlag: int,
    stateWrite: int, printFreq: int, captions: int, olddivstyle: int, precision: int,
    stepsize: real, quenchit: int, equil: int)

  /** GetOptions (fly/fly_amosa.c:969-1040): the options with the solver
      and derivative functions written as names; an unknown one is an error. */
  function GetOptions(s: Settings, argvsave: string): (r: Result<Opts, Reason>)
    ensures r.Ok? <==> s.pd != OtherDeriv && s.ps != OtherSolver
    ensures r.Err? ==> r.error == (if s.pd == OtherDeriv then UnknownDeriv else UnknownSolver)
    ensures r.Ok? ==> DerivNamed(r.value.derivfunc) == Some(s.pd)
    ensures r.Ok? ==> SolverNamed(r.value.solver) == Some(Restored(s.ps))
  {
    match (DerivName(s.pd), SolverName(s.ps))
    case (None, _) => Err(UnknownDeriv)
    case (_, None) => Err(UnknownSolver)
    case (Some(d), Some(solver)) =>
      SolverNameRoundTrip(s.ps);
      DerivNameRoundTrip(s.pd);
      Ok(Opts(s.inname, s.outname, argvsave, d, solver, s.stopFlag, s.prolixFlag,
              s.landscapeFlag, s.timeFlag, s.logFlag, s.stateWrite, s.printFreq, s.captions,
              s.olddivstyle, s.precision, s.stepsize, s.quenchit, s.equil))
  }

  /** The first reason RestoreOptions exits for, if any: an unknown name,
      or a saved landscape or equilibration run (fly/fly_amosa.c:1058-1119). */
  function RestoreError(o: Opts): (r: Option<Reason>)
    ensures r.None? <==>
              DerivNamed(o.derivfunc).Some? && SolverNamed(o.solver).Some?
              && o.landscapeFlag == 0 && o.equil == 0
  {
    if DerivNamed(o.derivfunc).None? then Some(UnknownDeriv)
    else if SolverNamed(o.solver).None? then Some(UnknownSolver)
    else if o.landscapeFlag != 0 then Some(RestoreLandscape)
    else if o.equil != 0 then Some(RestoreEquil)
    else None
  }

  /** The settings after a successful RestoreOptions: the saved values
      replace the current ones; accuracy, method, g(u), the no-file,
      benchmark and debug flags are not saved and stay. */
  function RestoredSettings(s: Settings, o: Opts): Settings
    requires RestoreError(o).None?
  {
    s.(inname := o.inname, outname := o.outname,
       pd := DerivNamed(o.derivfunc).value, ps := SolverNamed(o.solver).value,
       stopFlag := o.stopFlag, prolixFlag := o.prolixFlag, landscapeFlag := o.landscapeFlag,
       logFlag := o.logFlag, timeFlag := o.timeFlag, stateWrite := o.stateWrite,
       printFreq := o.printFreq, captions := o.captions, olddivstyle := o.olddivstyle,
       precision := o.precision, stepsize := o.stepsize, quenchit := o.quenchit, equil := o.equil)
  }

  /** Saving then restoring gives the run back unchanged, except that a
      BaDe solver comes back as BuSt; landscape and equilibration runs are
      refused. */
  lemma SaveRestore(s: Settings, argvsave: string)
    requires GetOptions(s, argvsave).Ok?
    ensures RestoreError(GetOptions(s, argvsave).value).None? <==> s.landscapeFlag == 0 && s.equil == 0
    ensures RestoreError(GetOptions(s, argvsave).value).None? ==>
              RestoredSettings(s, GetOptions(s, argvsave).value) == s.(ps := Restored(s.ps))
              && GetOptions(s, argvsave).value.argv == argvsave
  {
  }

  /* ----------------------------------------------------------------------
     The globals and the two procedures that write them
     ---------------------------------------------------------------------- */

  /** The option globals and the saved command line. */
  class Globals {
    var settings: Settings
    var argvsave: string

    /** The static initial values of fly_amosa.c (fly/fly_amosa.c:161-167);
        the globals defined elsewhere come from `s`. */
    constructor (s: Settings)
      ensures settings == s.(stepsize := 1.0, accuracy := 0.001, precision := 8,
                             prolixFlag := 0, landscapeFlag := 0, scoreMethod := 0)
      ensures argvsave == []
    {
      settings := s.(stepsize := 1.0, accuracy := 0.001, precision := 8,
                     prolixFlag := 0, landscapeFlag := 0, scoreMethod := 0);
      argvsave := [];
    }

    /** ParseCommandLine (fly/fly_amosa.c:198-486): set the defaults, run
        the options getopt returns, check the combination and the argument
        count, and save the command line. On an exit the program ends, so
        only the outcome is stated then. */
    method ParseCommandLine(argv: seq<string>, opts: Parsed, optind: nat, conv: Conv) returns (r: Outcome)
      modifies this
      ensures r == ParseOutcome(old(settings), argv, opts, optind, conv)
      ensures r.Continue? ==> settings == Options(Defaults(old(settings)), opts, conv).s
      ensures r.Continue? ==> argvsave == ArgvLine(argv)
    {
      settings := Defaults(settings);
      ghost var start := settings;
      var k := 0;
      while k < |opts|
        invariant 0 <= k <= |opts|
        invariant Options(settings, opts[k..], conv) == Options(start, opts, conv)
      {
        assert opts[k..][0] == opts[k] && opts[k..][1..] == opts[k + 1..];
        var step := Apply(settings, opts[k].0, opts[k].1, conv);
        if step.Exit? {
          return Stopped(step.status, step.why);
        }
        settings := step.s;
        k := k + 1;
      }
      assert opts[k..] == [];
      assert Options(start, opts, conv) == Next(settings);
      if settings.quenchit == 1 && settings.equil == 1 {
        return Stopped(1, QuenchWithEquil);
      }
      if |argv| - (optind - 1) != 2 {
        return Stopped(1, Usage);
      }
      var save := [];
      var i := 0;
      while i < |argv|
        invariant 0 <= i <= |argv|
        invariant save == Spaced(argv[..i])
        invariant settings == Options(start, opts, conv).s
      {
        SpacedSnoc(argv[..i], argv[i]);
        assert argv[..i + 1] == argv[..i] + [argv[i]];
        if i > 0 {
          save := save + " ";
        }
        save := save + argv[i];
        i := i + 1;
      }
      assert argv[..i] == argv;
      argvsave := save + "\n";
      r := Continue(optind);
    }

    /** RestoreOptions (fly/fly_amosa.c:1046-1133): put the saved options
        back, or exit on an unknown name or a landscape or equilibration
        run. */
    method RestoreOptions(o: Opts) returns (err: Option<Reason>)
      modifies this
      ensures err == RestoreError(o)
      ensures err.None? ==> settings == RestoredSettings(old(settings), o) && argvsave == o.argv
    {
      argvsave := o.argv;
      settings := settings.(inname := o.inname, outname := o.outname);
      var pd := DerivNamed(o.derivfunc);
      if pd.None? {
        return Some(UnknownDeriv);
      }
      var ps := SolverNamed(o.solver);
      if ps.None? {
        return Some(UnknownSolver);
      }
      settings := settings.(pd := pd.value, ps := ps.value, stopFlag := o.stopFlag,
                            prolixFlag := o.prolixFlag, landscapeFlag := o.landscapeFlag);
      if o.landscapeFlag != 0 {
        return Some(RestoreLandscape);
      }
      settings := settings.(logFlag := o.logFlag, timeFlag := o.timeFlag, stateWrite := o.stateWrite,
                            printFreq := o.printFreq, captions := o.captions,
                            olddivstyle := o.olddivstyle, precision := o.precision,
                            stepsize := o.stepsize, quenchit := o.quenchit, equil := o.equil);
      if o.equil != 0 {
        return Some(RestoreEquil);
      }
      err := None;
    }
  }
}
