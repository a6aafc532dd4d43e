// main.cpp: the Options record and the loop in main that reads the command line.
// Each argument is dispatched on its first 11 or 14 characters; the rest of the
// argument is the value. An argument matching no prefix ends main. stoi, which
// throws on text that is not a number, is a parameter of the model.
module CommandLine {
  import opened Optional

  /** struct Options with its default member initialisers. */
  datatype Options = Options(fileName: string, nSamples: int, xResolution: int, yResolution: int)

  const Defaults := Options("image.jpg", 1, 600, 300)

  /** std::stoi: the number a text starts with, or None where stoi throws. */
  type Stoi = string -> Option<int>

  /** What the loop leaves: the options, or the argument that ended main, either
      because it matched no prefix or because stoi threw on its value. */
  datatype Parsed =
    | Parsed(options: Options)
    | Unknown(arg: string)
    | NotANumber(arg: string)

  /** The option an argument sets. */
  datatype Key = FileName | NSamples | XResolution | YResolution

  /** The prefix that selects each option. */
  function Prefix(k: Key): (p: string)
    ensures |p| == if k == FileName || k == NSamples then 11 else 14
  {
    match k
    case FileName => "--fileName="
    case NSamples => "--nSamples="
    case XResolution => "--xResolution="
    case YResolution => "--yResolution="
  }

  /** std::string::substr(pos, count) for pos within the string: at most `count`
      characters from `pos`, fewer when the string ends first. */
  function Substr(s: string, pos: nat, count: nat): (t: string)
    requires pos <= |s|
    ensures |t| <= count
  {
    if pos + count <= |s| then s[pos..pos + count] else s[pos..]
  }

  predicate HasPrefix(s: string, p: string) {
    |p| <= |s| && s[..|p|] == p
  }

  /** Comparing the first |p| characters with p is asking whether p is a prefix,
      and the value read after it is the whole rest of the argument. */
  lemma SubstrPrefix(s: string, p: string)
    ensures Substr(s, 0, |p|) == p <==> HasPrefix(s, p)
    ensures HasPrefix(s, p) ==> Substr(s, |p|, |s|) == s[|p|..]
  {
  }

  /** The if-else chain of the loop body: the first prefix the argument starts with,
      tried in the order fileName, nSamples, xResolution, yResolution. */
  function Dispatch(arg: string): (k: Option<Key>)
    ensures k.Some? ==> HasPrefix(arg, Prefix(k.value))
  {
    SubstrPrefix(arg, Prefix(FileName));
    SubstrPrefix(arg, Prefix(NSamples));
    SubstrPrefix(arg, Prefix(XResolution));
    SubstrPrefix(arg, Prefix(YResolution));
    if Substr(arg, 0, 11) == "--fileName=" then Some(FileName)
    else if Substr(arg, 0, 11) == "--nSamples=" then Some(NSamples)
    else if Substr(arg, 0, 14) == "--xResolution=" then Some(XResolution)
    else if Substr(arg, 0, 14) == "--yResolution=" then Some(YResolution)
    else None
  }

  /** No prefix starts with another, so the order of the tests does not matter: an
      argument selects an option exactly when it starts with that option's prefix. */
  lemma DispatchIffPrefix(arg: string, k: Key)
    ensures Dispatch(arg) == Some(k) <==> HasPrefix(arg, Prefix(k))
  {
    forall k' | HasPrefix(arg, Prefix(k'))
      ensures arg[2] == Prefix(k')[2]
    {
      assert arg[..|Prefix(k')|][2] == arg[2];
    }
  }

  /** One pass of the loop body on the options read so far. */
  function Apply(o: Options, arg: string, stoi: Stoi): Parsed {
    match Dispatch(arg)
    case None => Unknown(arg)
    case Some(k) =>
      var value := arg[|Prefix(k)|..];
      if k == FileName then Parsed(o.(fileName := value))
      else match stoi(value)
        case None => NotANumber(arg)
        case Some(n) =>
          Parsed(if k == NSamples then o.(nSamples := n)
                 else if k == XResolution then o.(xResolution := n)
                 else o.(yResolution := n))
  }

  /** The loop over the arguments, from the options read so far: it stops at the
      first argument that ends main. */
  function ParseArgs(o: Options, args: seq<string>, stoi: Stoi): Parsed
    decreases |args|
  {
    if args == [] then Parsed(o)
    else match Apply(o, args[0], stoi)
      case Parsed(o') => ParseArgs(o', args[1..], stoi)
      case stop => stop
  }

  /** What main reads from argv: the loop starts at argv[1], past the program name. */
  function CommandLine(argv: seq<string>, stoi: Stoi): Parsed {
    if |argv| <= 1 then Parsed(Defaults) else ParseArgs(Defaults, argv[1..], stoi)
  }

  /** The loop of main, updating the options field by field; it returns at the first
      argument that ends main. */
  method ReadCommandLine(argv: seq<string>, stoi: Stoi) returns (result: Parsed)
    ensures result == CommandLine(argv, stoi)
  {
    ghost var args := if |argv| <= 1 then [] else argv[1..];
    var options := Defaults;
    var i := 1;
    while i < |argv|
      invariant 1 <= i <= |args| + 1
      invariant ParseArgs(Defaults, args[..i - 1], stoi) == Parsed(options)
    {
      var step := ReadArgument(options, argv[i], stoi);
      ReadOneMore(Defaults, args, i - 1, stoi);
      if !step.Parsed? {
        return step;
      }
      options := step.options;
      i := i + 1;
    }
    assert args[..i - 1] == args;
    result := Parsed(options);
  }

  /** The body of the loop on one argument: the chain of prefix tests, each setting
      its field from the rest of the argument; stoi failing ends main. */
  method ReadArgument(options: Options, argString: string, stoi: Stoi) returns (result: Parsed)
    ensures result == Apply(options, argString, stoi)
  {
    SubstrPrefix(argString, "--fileName=");
    SubstrPrefix(argString, "--nSamples=");
    SubstrPrefix(argString, "--xResolution=");
    SubstrPrefix(argString, "--yResolution=");
    if Substr(argString, 0, 11) == "--fileName=" {
      result := Parsed(options.(fileName := Substr(argString, 11, |argString|)));
    } else if Substr(argString, 0, 11) == "--nSamples=" {
      var n := stoi(Substr(argString, 11, |argString|));
      result := if n.None? then NotANumber(argString) else Parsed(options.(nSamples := n.value));
    } else if Substr(argString, 0, 14) == "--xResolution=" {
      var n := stoi(Substr(argString, 14, |argString|));
      result := if n.None? then NotANumber(argString) else Parsed(options.(xResolution := n.value));
    } else if Substr(argString, 0, 14) == "--yResolution=" {
      var n := stoi(Substr(argString, 14, |argString|));
      result := if n.None? then NotANumber(argString) else Parsed(options.(yResolution := n.value));
    } else {
      result := Unknown(argString);
    }
  }

  /** The loop's step on the arguments: reading argument k + 1 continues from what
      the first k left, and an argument that ends main decides the whole result. */
  lemma ReadOneMore(o: Options, args: seq<string>, k: nat, stoi: Stoi)
    requires k < |args|
    ensures ParseArgs(o, args[..k], stoi).Parsed? ==>
      ParseArgs(o, args[..k + 1], stoi) == Apply(ParseArgs(o, args[..k], stoi).options, args[k], stoi)
    ensures !ParseArgs(o, args[..k + 1], stoi).Parsed? ==> ParseArgs(o, args, stoi) == ParseArgs(o, args[..k + 1], stoi)
  {
    ParseStep(o, args[..k], args[k], stoi);
    assert args[..k + 1] == args[..k] + [args[k]];
    ParseAppend(o, args[..k + 1], args[k + 1..], stoi);
    assert args[..k + 1] + args[k + 1..] == args;
  }

  /** Reading one more argument continues from the options read so far, or keeps
      the argument that stopped the loop. */
  lemma ParseStep(o: Options, args: seq<string>, arg: string, stoi: Stoi)
    ensures ParseArgs(o, args + [arg], stoi) ==
      match ParseArgs(o, args, stoi)
      case Parsed(o') => Apply(o', arg, stoi)
      case stop => stop
  {
    ParseAppend(o, args, [arg], stoi);
    assert ParseArgs(o, [arg], stoi) == Apply(o, arg, stoi);
  }

  /** Reading a + b reads a and then, from the options a leaves, b; an argument of
      a that ends main ends it before b is looked at. */
  lemma {:induction false} ParseAppend(o: Options, a: seq<string>, b: seq<string>, stoi: Stoi)
    ensures ParseArgs(o, a + b, stoi) ==
      match ParseArgs(o, a, stoi)
      case Parsed(o') => ParseArgs(o', b, stoi)
      case stop => stop
    decreases |a|
  {
    if a == [] {
      assert a + b == b;
    } else {
      assert (a + b)[1..] == a[1..] + b;
      match Apply(o, a[0], stoi)
      case Parsed(o') => ParseAppend(o', a[1..], b, stoi);
      case _ =>
    }
  }

  /** Without arguments, or with the program name alone, the options are the
      defaults: image.jpg, one sample, 600 by 300. */
  lemma NoArguments(argv: seq<string>, stoi: Stoi)
    requires |argv| <= 1
    ensures CommandLine(argv, stoi) == Parsed(Options("image.jpg", 1, 600, 300))
  {
  }

  /** The value an option takes when `arg` sets it, as the field holds it. */
  datatype Setting = Text(s: string) | Number(n: int)

  function Field(o: Options, k: Key): Setting {
    match k
    case FileName => Text(o.fileName)
    case NSamples => Number(o.nSamples)
    case XResolution => Number(o.xResolution)
    case YResolution => Number(o.yResolution)
  }

  /** The last argument of `args` that selects option k, if there is one. */
  function LastFor(args: seq<string>, k: Key): (a: Option<string>)
    ensures a.Some? ==> a.value in args && Dispatch(a.value) == Some(k)
    decreases |args|
  {
    if args == [] then None
    else if Dispatch(args[|args| - 1]) == Some(k) then Some(args[|args| - 1])
    else LastFor(args[..|args| - 1], k)
  }

  /** The value an argument that selects k gives it: the rest of the argument for
      the file name, and the rest as stoi reads it for the three numbers. */
  function ValueOf(arg: string, k: Key, stoi: Stoi): Option<Setting>
    requires HasPrefix(arg, Prefix(k))
  {
    var rest := arg[|Prefix(k)|..];
    if k == FileName then Some(Text(rest))
    else match stoi(rest)
      case None => None
      case Some(n) => Some(Number(n))
  }

  /** Setting one option leaves the three others as they were. */
  lemma ApplyFrame(o: Options, arg: string, stoi: Stoi, k: Key)
    requires Apply(o, arg, stoi).Parsed? && Dispatch(arg) != Some(k)
    ensures Field(Apply(o, arg, stoi).options, k) == Field(o, k)
  {
  }

  /** An argument that selects k sets it to the value it carries. */
  lemma ApplySets(o: Options, arg: string, stoi: Stoi, k: Key)
    requires Apply(o, arg, stoi).Parsed? && Dispatch(arg) == Some(k)
    ensures Some(Field(Apply(o, arg, stoi).options, k)) == ValueOf(arg, k, stoi)
  {
  }

  /** Later duplicates overwrite earlier ones: when the whole command line is read,
      each option holds what its last argument set, or its earlier value when no
      argument names it. */
  lemma {:induction false} LastOccurrenceWins(o: Options, args: seq<string>, stoi: Stoi, k: Key)
    requires ParseArgs(o, args, stoi).Parsed?
    ensures var o' := ParseArgs(o, args, stoi).options;
      match LastFor(args, k)
      case None => Field(o', k) == Field(o, k)
      case Some(a) => Some(Field(o', k)) == ValueOf(a, k, stoi)
    decreases |args|
  {
    if args != [] {
      var init, arg := args[..|args| - 1], args[|args| - 1];
      assert args == init + [arg];
      ParseStep(o, init, arg, stoi);
      var mid := ParseArgs(o, init, stoi).options;
      assert ParseArgs(o, args, stoi) == Apply(mid, arg, stoi);
      if Dispatch(arg) == Some(k) {
        ApplySets(mid, arg, stoi, k);
      } else {
        ApplyFrame(mid, arg, stoi, k);
        LastOccurrenceWins(o, init, stoi, k);
      }
    }
  }

  /** The value an option ends with does not depend on what an earlier argument set
      it to: appending `--fileName=v` sets the file name to v whatever came before. */
  lemma LastFileNameWins(o: Options, args: seq<string>, v: string, stoi: Stoi)
    requires ParseArgs(o, args, stoi).Parsed?
    ensures ParseArgs(o, args + ["--fileName=" + v], stoi) ==
      Parsed(ParseArgs(o, args, stoi).options.(fileName := v))
  {
    var arg := "--fileName=" + v;
    ParseStep(o, args, arg, stoi);
    assert HasPrefix(arg, Prefix(FileName));
    DispatchIffPrefix(arg, FileName);
    assert arg[11..] == v;
  }

  /** The first argument that matches no prefix ends main, whatever follows it. */
  lemma FirstUnknownStops(o: Options, args: seq<string>, arg: string, rest: seq<string>, stoi: Stoi)
    requires ParseArgs(o, args, stoi).Parsed?
    requires forall k :: !HasPrefix(arg, Prefix(k))
    ensures ParseArgs(o, args + [arg] + rest, stoi) == Unknown(arg)
  {
    ParseAppend(o, args + [arg], rest, stoi);
    ParseStep(o, args, arg, stoi);
    if Dispatch(arg).Some? {
      DispatchIffPrefix(arg, Dispatch(arg).value);
    }
  }

  /** Nothing checks the number of samples: a stoi that reads 0 or a negative number
      is taken as it is. */
  lemma SamplesUnchecked(n: int, digits: string, stoi: Stoi)
    requires stoi(digits) == Some(n)
    ensures CommandLine(["main", "--nSamples=" + digits], stoi) == Parsed(Defaults.(nSamples := n))
  {
    var arg := "--nSamples=" + digits;
    assert ["main", arg][1..] == [arg];
    assert HasPrefix(arg, Prefix(NSamples));
    DispatchIffPrefix(arg, NSamples);
    assert arg[11..] == digits;
    assert Apply(Defaults, arg, stoi) == Parsed(Defaults.(nSamples := n));
    assert ParseArgs(Defaults, [arg], stoi) == ParseArgs(Defaults.(nSamples := n), [], stoi);
  }
}
