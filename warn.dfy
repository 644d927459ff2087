/** The warning sinks: a warning is a call warn.<name>(**args), and each sink decides what
    the call does — print it, record it, raise it, or ignore it. */
module Warn {
  import opened Wrappers
  import opened Text
  import opened PyValues

  /** The keyword arguments of a warning. */
  type Args = map<string, PyValue>

  /** One warning call: its name and its keyword arguments. */
  datatype Warning = Warning(name: string, args: Args)

  /** "k: repr(v)" for one argument. */
  function Entry(args: Args, k: string): string
    requires k in args
  {
    k + ": " + Repr(args[k])
  }

  /** The entries of format_dict, one per key, keys in sorted order. */
  function Entries(args: Args): (r: seq<string>)
    ensures |r| == |args|
    ensures forall i :: 0 <= i < |r| ==> |r[i]| >= 2
    ensures r != [] ==> r[0] == Entry(args, SortedKeys(args.Keys)[0])
    ensures forall i :: 0 <= i < |r| ==> r[i] == Entry(args, SortedKeys(args.Keys)[i])
  {
    var keys := SortedKeys(args.Keys);
    seq(|keys|, i requires 0 <= i < |keys| => Entry(args, keys[i]))
  }

  /** format_dict(d): ", ".join(name + ": " + repr(value)) over sorted(d.items()). */
  function FormatDict(args: Args): (r: string)
    ensures r == JoinWith(", ", Entries(args))
    ensures r == "" <==> args == map[]
    ensures args != map[] ==>
      var first := Entry(args, SortedKeys(args.Keys)[0]);
      |first| <= |r| && r[..|first|] == first
  {
    var entries := Entries(args);
    var joined := JoinWith(", ", entries);
    assert entries != [] ==> |entries[0]| <= |joined| && joined[..|entries[0]|] == entries[0] by {
      if entries != [] {
        JoinWithFirst(", ", entries);
      }
    }
    joined
  }

  /** fallback_format(name, args): the name with "_" read as " ", then, when there are
      arguments, " (" + format_dict(args) + ")". */
  function FallbackFormat(name: string, args: Args): (r: string)
    ensures |r| >= |name|
    ensures forall i :: 0 <= i < |name| ==> r[i] == if name[i] == '_' then ' ' else name[i]
    ensures |r| == |name| <==> args == map[]
    ensures args != map[] ==> r[|name|..] == " (" + FormatDict(args) + ")"
  {
    var words := ReplaceChar(name, '_', ' ');
    if args == map[] then words
    else
      var tail := " (" + FormatDict(args) + ")";
      assert (words + tail)[|words|..] == tail;
      words + tail
  }

  // ---------------------------------------------------------------------
  // The sinks

  /** PrintWarnings(output, prefix, **formats). The text written to the output stream so far
      is output; formats maps a warning name to the rendering of its template. */
  class PrintWarnings {
    var output: string
    const prefix: string
    const formats: map<string, Args -> string>

    constructor(output: string, prefix: string, formats: map<string, Args -> string>)
      ensures this.output == output && this.prefix == prefix && this.formats == formats
    {
      this.output := output;
      this.prefix := prefix;
      this.formats := formats;
    }

    /** _message_for(name, args): the template of name when one is given, the fallback
        format otherwise. */
    function MessageFor(name: string, args: Args): (m: string)
      ensures name !in formats ==> m == FallbackFormat(name, args)
    {
      if name in formats then formats[name](args) else FallbackFormat(name, args)
    }

    /** print_warning(**args): prefix, message and a newline, written in that order. */
    method Warn(name: string, args: Args) returns (r: Outcome)
      modifies this`output
      ensures r == Pass && output == old(output) + prefix + MessageFor(name, args) + "\n"
    {
      var message := MessageFor(name, args);
      output := output + prefix;
      output := output + message;
      output := output + "\n";
      r := Pass;
    }
  }

  /** IgnoreWarnings(): every warning is accepted and changes nothing. */
  class IgnoreWarnings {
    constructor() {
    }

    /** _ignore_warning(**args): returns normally, whatever the warning. */
    method Warn(name: string, args: Args) returns (r: Outcome)
      ensures r == Pass
    {
      r := Pass;
    }
  }

  /** WarningRecorder(): the warnings received, in the order they came. */
  class WarningRecorder {
    var warnings: seq<Warning>

    constructor()
      ensures warnings == []
    {
      warnings := [];
    }

    /** len(recorder) */
    function Length(): (n: nat)
      reads this
      ensures n == |warnings|
    {
      |warnings|
    }

    /** recorder[i], with Python's reading of a negative index as counting from the end;
        IndexError outside the list. */
    function Get(i: int): (r: Result<Warning>)
      reads this
      ensures r.Ok? <==> -|warnings| <= i < |warnings|
      ensures 0 <= i < |warnings| ==> r == Ok(warnings[i])
      ensures -|warnings| <= i < 0 ==> r == Ok(warnings[|warnings| + i])
      ensures r.Err? ==> r.error == IndexError
    {
      if 0 <= i < |warnings| then Ok(warnings[i])
      else if -|warnings| <= i < 0 then Ok(warnings[|warnings| + i])
      else Err(IndexError)
    }

    /** record_warning(**args): the warning is appended. */
    method Warn(name: string, args: Args) returns (r: Outcome)
      modifies this`warnings
      ensures r == Pass && warnings == old(warnings) + [Warning(name, args)]
    {
      warnings := warnings + [Warning(name, args)];
      r := Pass;
    }
  }

  /** WarningRaiser(exception_to_raise): every warning raises; exceptionToRaise builds the
      exception of the chosen class from its message. */
  class WarningRaiser {
    const exceptionToRaise: string -> Error

    /** WarningRaiser() raises UserWarning. */
    constructor()
      ensures forall m :: exceptionToRaise(m) == UserWarning(m)
    {
      exceptionToRaise := m => UserWarning(m);
    }

    constructor WithException(exceptionToRaise: string -> Error)
      ensures this.exceptionToRaise == exceptionToRaise
    {
      this.exceptionToRaise := exceptionToRaise;
    }

    /** raise_warning(**args): the exception, carrying the fallback message. */
    method Warn(name: string, args: Args) returns (r: Outcome)
      ensures r == Fail(exceptionToRaise(FallbackFormat(name, args)))
    {
      r := Fail(exceptionToRaise(FallbackFormat(name, args)));
    }
  }

  // ---------------------------------------------------------------------
  // Properties

  /** Recording warnings one at a time keeps them all, in call order: after the calls ws on a
      new recorder, the i-th one is at index i and at index i - len. */
  method RecordAll(ws: seq<Warning>) returns (recorder: WarningRecorder)
    ensures fresh(recorder) && recorder.warnings == ws
    ensures recorder.Length() == |ws|
    ensures forall i :: 0 <= i < |ws| ==> recorder.Get(i) == Ok(ws[i]) && recorder.Get(i - |ws|) == Ok(ws[i])
  {
    recorder := new WarningRecorder();
    for k := 0 to |ws|
      invariant recorder.warnings == ws[..k]
    {
      var _ := recorder.Warn(ws[k].name, ws[k].args);
      PrefixSnoc(ws, k);
    }
    PrefixSnoc(ws, |ws|);
  }

  /** fallback_format("example_warning_name", {}) == "example warning name" */
  lemma FallbackWithoutArguments()
    ensures FallbackFormat("example_warning_name", map[]) == "example warning name"
  {
    var r := FallbackFormat("example_warning_name", map[]);
    assert |r| == |"example warning name"|;
  }

  /** sorted() of two keys puts the smaller first. */
  lemma SortedPair(a: string, b: string)
    requires StrLt(a, b)
    ensures SortedKeys({a, b}) == [a, b]
  {
    var keys := SortedKeys({a, b});
    assert keys[0] == a by {
      if Least({a, b}) == b {
        StrLtAsymmetric(a, b);
      }
    }
    assert keys[1] in {a, b} && keys[1] != keys[0];
  }

  /** With two arguments the message lists the one with the smaller key first, whatever
      order they were passed in: fallback_format("another_warning", {"foo": "bar", "boz": 10})
      is "another warning (boz: 10, foo: 'bar')". */
  lemma TwoArguments(name: string, a: string, va: PyValue, b: string, vb: PyValue)
    requires StrLt(a, b)
    ensures FallbackFormat(name, map[b := vb, a := va])
            == ReplaceChar(name, '_', ' ') + " (" + ((a + ": " + Repr(va)) + ", " + (b + ": " + Repr(vb))) + ")"
  {
    var args := map[b := vb, a := va];
    StrLtIrreflexive(a);
    assert args.Keys == {a, b};
    SortedPair(a, b);
    var e := Entries(args);
    assert e == [Entry(args, a)] + [Entry(args, b)];
    JoinWithSnoc(", ", [Entry(args, a)], Entry(args, b));
  }
}
