/** The fixture's command line: a scan over the arguments, and the repeat count's digits. */
module FixtureOptions {
  import opened Decimal

  const UINT_RANGE := 0x1_0000_0000

  datatype Filter = NoFilter | Name(text: string)

  datatype Options = Options(verbose: bool, silent: bool, group: Filter, name: Filter, repeatCount: nat)

  const DEFAULTS := Options(false, false, NoFilter, NoFilter, 1)

  // ---------- The repeat count ----------

  /** The digits at the front of the argument, modulo the range of an unsigned int. */
  function RepeatFrom(s: string): nat
    requires s != [] && IsDigit(s[0])
  {
    ValueBounds(s[..DigitPrefix(s)]);
    Value(s[..DigitPrefix(s)]) % UINT_RANGE
  }

  lemma WrapStep(v: nat, d: nat)
    ensures ((v % UINT_RANGE) * 10 % UINT_RANGE + d) % UINT_RANGE == (v * 10 + d) % UINT_RANGE
  {
    var q := v / UINT_RANGE;
    assert v == q * UINT_RANGE + v % UINT_RANGE;
  }

  method ReadRepeat(s: string) returns (count: nat)
    requires s != [] && IsDigit(s[0])
    ensures count == RepeatFrom(s)
  {
    var digit := 0;
    count := 0;
    while digit < |s| && IsDigit(s[digit])
      invariant digit <= DigitPrefix(s) && (forall i :: 0 <= i < digit ==> IsDigit(s[i]))
      invariant Value(s[..digit]) >= 0 && count == Value(s[..digit]) % UINT_RANGE
      decreases |s| - digit
    {
      WrapStep(Value(s[..digit]), DigitValue(s[digit]));
      assert s[..digit + 1][..digit] == s[..digit];
      count := count * 10 % UINT_RANGE;
      count := (count + DigitValue(s[digit])) % UINT_RANGE;
      digit := digit + 1;
    }
  }

  /** The digit loop undoes the integer printer exactly for numbers an unsigned int holds;
      for larger ones it gives the remainder. */
  lemma RepeatOfNumeral(n: nat)
    ensures Numeral(n) != [] && IsDigit(Numeral(n)[0])
    ensures RepeatFrom(Numeral(n)) == n % UINT_RANGE
    ensures RepeatFrom(Numeral(n)) == n <==> n < UINT_RANGE
  {
    NumeralMeans(n);
    var s := Numeral(n);
    assert DigitPrefix(s) == |s|;
    assert s[..|s|] == s;
  }

  /** Only the digits in front count, leading zeros among them. */
  lemma RepeatOfDigits(digits: string, tail: string)
    requires digits != [] && AllDigits(digits) && (tail == [] || !IsDigit(tail[0]))
    ensures IsDigit((digits + tail)[0])
    ensures Value(digits) >= 0 && RepeatFrom(digits + tail) == Value(digits) % 0x1_0000_0000
  {
    var s := digits + tail;
    assert forall i :: 0 <= i < |digits| ==> IsDigit(s[i]);
    assert tail != [] ==> s[|digits|] == tail[0];
    assert DigitPrefix(s) == |digits|;
    assert s[..|digits|] == digits;
    ValueBounds(digits);
  }

  // ---------- The scan ----------

  /** The options from argument `i` on, and whether the scan ended early. */
  function Parse(args: seq<string>, o: Options): (Options, bool)
    decreases |args|
  {
    if args == [] then (o, false)
    else if args[0] == "-h" || args[0] == "--help" then (o, true)
    else if args[0] == "-v" then Parse(args[1..], o.(verbose := true))
    else if args[0] == "-s" then Parse(args[1..], o.(silent := true))
    else if args[0] == "-g" then
      if |args| == 1 then (o, true) else Parse(args[2..], o.(group := Name(args[1])))
    else if args[0] == "-n" then
      if |args| == 1 then (o, true) else Parse(args[2..], o.(name := Name(args[1])))
    else if args[0] == "-r" then
      if |args| > 1 && args[1] != [] && IsDigit(args[1][0]) then
        Parse(args[2..], o.(repeatCount := RepeatFrom(args[1])))
      else Parse(args[1..], o.(repeatCount := 2))
    else Parse(args[1..], o)
  }

  /** The first argument is the program. */
  function Arguments(argv: seq<string>): seq<string> {
    if argv == [] then [] else argv[1..]
  }

  class UnityFixture {
    var verbose: bool
    var silent: bool
    var groupFilter: Filter
    var nameFilter: Filter
    var repeatCount: nat

    ghost function Now(): Options
      reads this
    {
      Options(verbose, silent, groupFilter, nameFilter, repeatCount)
    }

    constructor ()
    {
      verbose, silent, groupFilter, nameFilter, repeatCount := false, false, NoFilter, NoFilter, 0;
    }

    /** The result says whether to exit without running tests. */
    method GetCommandLineOptions(argv: seq<string>) returns (stop: bool)
      modifies this
      ensures (Now(), stop) == Parse(Arguments(argv), DEFAULTS)
    {
      verbose, silent, groupFilter, nameFilter, repeatCount := false, false, NoFilter, NoFilter, 1;
      if |argv| == 1 {
        return false;
      }
      var i := 1;
      while i < |argv|
        invariant i >= 1 && (argv == [] || i <= |argv|)
        invariant Parse(if i <= |argv| then argv[i..] else [], Now()) == Parse(Arguments(argv), DEFAULTS)
      {
        assert argv[i..][1..] == argv[i + 1..];
        assert |argv[i..]| > 1 ==> argv[i..][2..] == argv[i + 2..] && argv[i..][1] == argv[i + 1];
        if argv[i] == "-h" || argv[i] == "--help" {
          return true;
        } else if argv[i] == "-v" {
          verbose := true;
          i := i + 1;
        } else if argv[i] == "-s" {
          silent := true;
          i := i + 1;
        } else if argv[i] == "-g" {
          i := i + 1;
          if i >= |argv| { return true; }
          groupFilter := Name(argv[i]);
          i := i + 1;
        } else if argv[i] == "-n" {
          i := i + 1;
          if i >= |argv| { return true; }
          nameFilter := Name(argv[i]);
          i := i + 1;
        } else if argv[i] == "-r" {
          repeatCount := 2;
          i := i + 1;
          if i < |argv| && argv[i] != [] && IsDigit(argv[i][0]) {
            repeatCount := ReadRepeat(argv[i]);
            i := i + 1;
          }
        } else {
          i := i + 1;
        }
      }
      assert argv != [] ==> argv[i..] == [];
      return false;
    }
  }

  // ---------- Round trip ----------

  function FilterArgs(flag: string, f: Filter): seq<string> {
    match f
    case NoFilter => []
    case Name(text) => [flag, text]
  }

  /** A command line that asks for the given options. */
  function Render(o: Options): seq<string> {
    (if o.verbose then ["-v"] else []) + ((if o.silent then ["-s"] else []) +
      (FilterArgs("-g", o.group) + (FilterArgs("-n", o.name) + ["-r", Numeral(o.repeatCount)])))
  }

  lemma ParseOne(arg: string, rest: seq<string>, o: Options)
    ensures arg == "-v" ==> Parse([arg] + rest, o) == Parse(rest, o.(verbose := true))
    ensures arg == "-s" ==> Parse([arg] + rest, o) == Parse(rest, o.(silent := true))
  {
    assert ([arg] + rest)[1..] == rest;
  }

  lemma ParseTwo(arg: string, text: string, rest: seq<string>, o: Options)
    ensures arg == "-g" ==> Parse([arg, text] + rest, o) == Parse(rest, o.(group := Name(text)))
    ensures arg == "-n" ==> Parse([arg, text] + rest, o) == Parse(rest, o.(name := Name(text)))
    ensures arg == "-r" && text != [] && IsDigit(text[0]) ==>
      Parse([arg, text] + rest, o) == Parse(rest, o.(repeatCount := RepeatFrom(text)))
  {
    assert ([arg, text] + rest)[2..] == rest;
  }

  /** After a rendered command line the scan goes on from the options asked for. */
  lemma RenderThen(o: Options, rest: seq<string>)
    requires o.repeatCount < UINT_RANGE
    ensures Parse(Render(o) + rest, DEFAULTS) == Parse(rest, o)
  {
    var last := ["-r", Numeral(o.repeatCount)] + rest;
    var names := FilterArgs("-n", o.name) + last;
    var groups := FilterArgs("-g", o.group) + names;
    var silents := (if o.silent then ["-s"] else []) + groups;
    var o1 := DEFAULTS.(verbose := o.verbose);
    var o2 := o1.(silent := o.silent);
    var o3 := o2.(group := o.group);
    var o4 := o3.(name := o.name);
    assert Render(o) + rest == (if o.verbose then ["-v"] else []) + silents;
    hide Parse, Numeral, FilterArgs;
    FlagStep("-v", o.verbose, silents, DEFAULTS);
    FlagStep("-s", o.silent, groups, o1);
    FilterStep("-g", o.group, names, o2);
    FilterStep("-n", o.name, last, o3);
    RepeatOfNumeral(o.repeatCount);
    ParseTwo("-r", Numeral(o.repeatCount), rest, o4);
  }

  /** Every combination of options can be asked for and comes back as asked, for any filter
      texts at all, flags included, and any repeat count an unsigned int holds. */
  lemma RenderParses(o: Options)
    requires o.repeatCount < UINT_RANGE
    ensures Parse(Render(o), DEFAULTS) == (o, false)
  {
    RenderThen(o, []);
    assert Render(o) + [] == Render(o);
  }

  /** The option that a flag sets is the same in both. */
  predicate Same(flag: string, a: Options, b: Options) {
    (flag == "-v" ==> a.verbose == b.verbose) && (flag == "-s" ==> a.silent == b.silent) &&
    (flag == "-g" ==> a.group == b.group) && (flag == "-n" ==> a.name == b.name) &&
    (flag == "-r" ==> a.repeatCount == b.repeatCount)
  }

  /** One step of the scan: it is over, or goes on with fewer arguments and an option set that
      the first of them asks for. */
  lemma ParseStep(args: seq<string>, o: Options) returns (rest: seq<string>, o': Options)
    requires args != []
    ensures |rest| < |args| && (forall a :: a in rest ==> a in args)
    ensures forall flag :: flag != args[0] ==> Same(flag, o', o)
    ensures Parse(args, o) == Parse(rest, o') || Parse(args, o) == (o', true)
  {
    var (a, more) := (args[0], |args| > 1);
    rest := if (a == "-g" || a == "-n" || (a == "-r" && more && args[1] != [] && IsDigit(args[1][0]))) && more
            then args[2..] else args[1..];
    o' := if a == "-v" then o.(verbose := true) else if a == "-s" then o.(silent := true)
          else if a == "-g" && more then o.(group := Name(args[1]))
          else if a == "-n" && more then o.(name := Name(args[1]))
          else if a == "-r" then
            o.(repeatCount := if more && args[1] != [] && IsDigit(args[1][0]) then RepeatFrom(args[1]) else 2)
          else o;
  }

  /** What is not asked for stays: without its flag among the arguments an option keeps the
      value that the scan starts with. */
  lemma {:induction false} NotAsked(args: seq<string>, o: Options, flag: string)
    requires flag !in args
    ensures Same(flag, Parse(args, o).0, o)
    decreases |args|
  {
    if args != [] {
      var rest, o' := ParseStep(args, o);
      assert flag != args[0] && Same(flag, o', o);
      NotAsked(rest, o', flag);
    }
  }

  /** What is not asked for is off: no flag set, no filter, and one run. */
  lemma Unasked(args: seq<string>)
    ensures "-r" !in args ==> Parse(args, DEFAULTS).0.repeatCount == 1
    ensures "-v" !in args ==> !Parse(args, DEFAULTS).0.verbose
    ensures "-s" !in args ==> !Parse(args, DEFAULTS).0.silent
    ensures "-g" !in args ==> Parse(args, DEFAULTS).0.group == NoFilter
    ensures "-n" !in args ==> Parse(args, DEFAULTS).0.name == NoFilter
  {
    forall flag | flag !in args ensures Same(flag, Parse(args, DEFAULTS).0, DEFAULTS) {
      NotAsked(args, DEFAULTS, flag);
    }
  }

  /** The next argument, if there is one, does not start with a digit. */
  predicate NoNumber(rest: seq<string>) {
    rest == [] || rest[0] == [] || !IsDigit(rest[0][0])
  }

  /** The other arguments, after any options: help and a missing filter end the scan with
      the options as they are, a repeat without a number means twice, the rest is ignored. */
  lemma OtherArguments(o: Options, arg: string, rest: seq<string>)
    requires o.repeatCount < UINT_RANGE
    ensures arg == "-h" || arg == "--help" ==> Parse(Render(o) + ([arg] + rest), DEFAULTS) == (o, true)
    ensures (arg == "-g" || arg == "-n") && rest == [] ==>
      Parse(Render(o) + ([arg] + rest), DEFAULTS) == (o, true)
    ensures arg == "-r" && !NoNumber(rest) ==>
      Parse(Render(o) + ([arg] + rest), DEFAULTS) == Parse(rest[1..], o.(repeatCount := RepeatFrom(rest[0])))
    ensures arg == "-r" && NoNumber(rest) ==>
      Parse(Render(o) + ([arg] + rest), DEFAULTS) == Parse(rest, o.(repeatCount := 2))
    ensures arg !in {"-h", "--help", "-v", "-s", "-g", "-n", "-r"} ==>
      Parse(Render(o) + ([arg] + rest), DEFAULTS) == Parse(rest, o)
  {
    RenderThen(o, [arg] + rest);
    hide Render;
    assert ([arg] + rest)[1..] == rest;
    assert rest != [] ==> ([arg] + rest)[1] == rest[0] && ([arg] + rest)[2..] == rest[1..];
  }

  lemma FlagStep(flag: string, given: bool, rest: seq<string>, o: Options)
    requires flag == "-v" || flag == "-s"
    requires flag == "-v" ==> !o.verbose
    requires flag == "-s" ==> !o.silent
    ensures Parse((if given then [flag] else []) + rest, o) ==
            Parse(rest, if flag == "-v" then o.(verbose := given) else o.(silent := given))
  {
    ParseOne(flag, rest, o);
    assert [] + rest == rest;
  }

  lemma FilterStep(flag: string, f: Filter, rest: seq<string>, o: Options)
    requires flag == "-g" || flag == "-n"
    requires flag == "-g" ==> o.group == NoFilter
    requires flag == "-n" ==> o.name == NoFilter
    ensures Parse(FilterArgs(flag, f) + rest, o) ==
            Parse(rest, if flag == "-g" then o.(group := f) else o.(name := f))
  {
    if f.Name? { ParseTwo(flag, f.text, rest, o); }
    assert [] + rest == rest;
  }
}
