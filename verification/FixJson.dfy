/** Turning single-quoted strings into the double-quoted strings of section 7 of RFC 8259. */
module FixJson {

  /** Where the scanner stands; a string mode remembers whether a backslash is pending. */
  datatype Mode = Outside | Double(escaped: bool) | Single(escaped: bool)

  // ---------------------------------------------------------------------------------------
  // What the scanner writes
  // ---------------------------------------------------------------------------------------

  function Step(mode: Mode, c: char): (Mode, string) {
    match mode
    case Outside =>
      if c == '"' then (Double(false), [c])
      else if c == '\'' then (Single(false), "\"")
      else (Outside, [c])
    case Double(escaped) =>
      if escaped then (Double(false), [c])
      else if c == '\\' then (Double(true), [c])
      else if c == '"' then (Outside, [c])
      else (Double(false), [c])
    case Single(false) =>
      if c == '\\' then (Single(true), "")
      else if c == '\'' then (Outside, "\"")
      else if c == '"' then (Single(false), ['\\', '"'])
      else (Single(false), [c])
    case Single(true) =>
      (Single(false), if c == '\'' then [c] else ['\\', c])
  }

  /** An open single-quoted string is closed; a pending backslash in it is dropped. */
  function Finish(mode: Mode): string {
    if mode.Single? then "\"" else ""
  }

  function Fixed(mode: Mode, s: string): string
    decreases s
  {
    if s == "" then Finish(mode)
    else
      var (next, written) := Step(mode, s[0]);
      written + Fixed(next, s[1..])
  }

  // ---------------------------------------------------------------------------------------
  // What a text says: both kinds of quotes delimit strings, escapes are resolved
  // ---------------------------------------------------------------------------------------

  datatype Symbol = Raw(c: char) | Open | Close | Letter(c: char) | Escape(c: char)

  function Read(mode: Mode, s: string): seq<Symbol>
    decreases s
  {
    if s == "" then if mode.Single? then [Close] else []
    else
      var c := s[0];
      match mode
      case Outside =>
        if c == '"' then [Open] + Read(Double(false), s[1..])
        else if c == '\'' then [Open] + Read(Single(false), s[1..])
        else [Raw(c)] + Read(Outside, s[1..])
      case Double(false) =>
        if c == '\\' then Read(Double(true), s[1..])
        else if c == '"' then [Close] + Read(Outside, s[1..])
        else [Letter(c)] + Read(Double(false), s[1..])
      case Double(true) =>
        [if c == '"' then Letter(c) else Escape(c)] + Read(Double(false), s[1..])
      case Single(false) =>
        if c == '\\' then Read(Single(true), s[1..])
        else if c == '\'' then [Close] + Read(Outside, s[1..])
        else [Letter(c)] + Read(Single(false), s[1..])
      case Single(true) =>
        [if c == '"' || c == '\'' then Letter(c) else Escape(c)] + Read(Single(false), s[1..])
  }

  // ---------------------------------------------------------------------------------------
  // Scanning the output in lock-step with the input
  // ---------------------------------------------------------------------------------------

  /** The mode a scan of the output is in while the scan of the input is in the given one. */
  function Image(mode: Mode): Mode {
    if mode.Single? then Double(false) else mode
  }

  /** Conversion changes the notation, not what the text says. */
  lemma {:induction false} FixedSaysTheSame(mode: Mode, s: string)
    ensures Read(Image(mode), Fixed(mode, s)) == Read(mode, s)
    decreases s
  {
    if s == "" {
      assert mode.Single? ==> Fixed(mode, s)[1..] == "";
    } else {
      hide Read, Step;
      var next := Step(mode, s[0]).0;
      FixedSaysTheSame(next, s[1..]);
      StepSaysTheSame(mode, s, Fixed(next, s[1..]));
    }
  }

  lemma StepSaysTheSame(mode: Mode, s: string, rest: string)
    requires s != "" && Read(Image(Step(mode, s[0]).0), rest) == Read(Step(mode, s[0]).0, s[1..])
    ensures Read(Image(mode), Step(mode, s[0]).1 + rest) == Read(mode, s)
  {
    hide Read;
    var (next, written) := Step(mode, s[0]);
    ReadOne(mode, s);
    if |written| == 0 {
      assert written + rest == rest;
    } else {
      var out := written + rest;
      ReadOne(Image(mode), out);
      if |written| == 1 {
        assert out[1..] == rest;
      } else {
        ReadOne(Double(true), out[1..]);
        assert out[0] == '\\' && out[1..][0] == written[1] && out[1..][1..] == rest;
      }
    }
  }

  /** What one character says. */
  function Says(mode: Mode, c: char): seq<Symbol> {
    match mode
    case Outside => if c == '"' || c == '\'' then [Open] else [Raw(c)]
    case Double(escaped) =>
      if escaped then [if c == '"' then Letter(c) else Escape(c)]
      else if c == '\\' then [] else if c == '"' then [Close] else [Letter(c)]
    case Single(escaped) =>
      if escaped then [if c == '"' || c == '\'' then Letter(c) else Escape(c)]
      else if c == '\\' then [] else if c == '\'' then [Close] else [Letter(c)]
  }

  lemma ReadOne(mode: Mode, s: string)
    requires s != ""
    ensures Read(mode, s) == Says(mode, s[0]) + Read(Step(mode, s[0]).0, s[1..])
  {
  }

  /** Standard JSON quoting: no single quote stands outside a double-quoted string. */
  predicate Standard(mode: Mode, s: string)
    requires !mode.Single?
    decreases s
  {
    if s == "" then true
    else !(mode.Outside? && s[0] == '\'') && Standard(Step(mode, s[0]).0, s[1..])
  }

  lemma {:induction false} FixedIsStandard(mode: Mode, s: string)
    ensures Standard(Image(mode), Fixed(mode, s))
    decreases s
  {
    if s == "" {
      assert mode.Single? ==> Fixed(mode, s)[1..] == "";
    } else {
      var (next, written) := Step(mode, s[0]);
      FixedIsStandard(next, s[1..]);
      var out := Fixed(mode, s);
      assert out == written + Fixed(next, s[1..]);
      if |written| == 0 {
        assert out == Fixed(next, s[1..]);
      } else if |written| == 1 {
        assert out[1..] == Fixed(next, s[1..]);
      } else {
        assert out[0] == '\\' && out[1..][0] == written[1] && out[1..][1..] == Fixed(next, s[1..]);
      }
    }
  }

  /** A text is returned unchanged exactly when its quoting was standard already. */
  lemma {:induction false} UnchangedIffStandard(mode: Mode, s: string)
    requires !mode.Single?
    ensures Fixed(mode, s) == s <==> Standard(mode, s)
    decreases s
  {
    if s != "" {
      var (next, written) := Step(mode, s[0]);
      if mode.Outside? && s[0] == '\'' {
        assert Fixed(mode, s)[0] == '"';
      } else {
        UnchangedIffStandard(next, s[1..]);
        assert Fixed(mode, s) == [s[0]] + Fixed(next, s[1..]);
        assert s == [s[0]] + s[1..];
        if Fixed(mode, s) == s {
          assert Fixed(mode, s)[1..] == s[1..];
        }
      }
    }
  }

  /** A second pass changes nothing. */
  lemma FixedTwice(s: string)
    ensures Fixed(Outside, Fixed(Outside, s)) == Fixed(Outside, s)
  {
    FixedIsStandard(Outside, s);
    UnchangedIffStandard(Outside, Fixed(Outside, s));
  }

  /** No backslash is pending at the end of a text. */
  predicate Complete(mode: Mode, s: string)
    decreases s
  {
    if s == "" then !(mode.Double? && mode.escaped) else Complete(Step(mode, s[0]).0, s[1..])
  }

  /** Two texts with standard quoting that say the same are the same, so the converted text is the only standard one
      with its meaning. */
  lemma {:induction false} StandardUnique(mode: Mode, a: string, b: string)
    requires !mode.Single? && Standard(mode, a) && Standard(mode, b)
    requires Complete(mode, a) && Complete(mode, b)
    requires Read(mode, a) == Read(mode, b)
    ensures a == b
    decreases a
  {
    SymbolFirst(mode, a);
    SymbolFirst(mode, b);
    if a != "" && b != "" {
      if mode == Double(false) && a[0] == '\\' {
        SymbolFirst(Double(true), a[1..]);
      }
      if mode == Double(false) && b[0] == '\\' {
        SymbolFirst(Double(true), b[1..]);
      }
      assert a[0] == b[0];
      StandardUnique(Step(mode, a[0]).0, a[1..], b[1..]);
      assert a == [a[0]] + a[1..] && b == [b[0]] + b[1..];
    }
  }

  /** Every character of a standard text but a backslash that starts an escape is read as one symbol. */
  lemma SymbolFirst(mode: Mode, s: string)
    requires !mode.Single? && Complete(mode, s)
    ensures Read(mode, s) == [] <==> s == ""
    ensures s != "" && !(mode == Double(false) && s[0] == '\\') && !(mode == Outside && s[0] == '\'') ==>
              Read(mode, s)[1..] == Read(Step(mode, s[0]).0, s[1..])
  {
    if s != "" && mode == Double(false) && s[0] == '\\' {
      assert s[1..] != "";
    }
  }

  /** Between quotes, a text without quotes and backslashes is kept, whichever quotes delimit it. */
  lemma PlainKept(quote: char, body: string, rest: string)
    requires quote in "'\""
    requires forall i :: 0 <= i < |body| ==> body[i] !in "'\"\\"
    ensures Fixed(Outside, [quote] + body + [quote] + rest) == "\"" + body + "\"" + Fixed(Outside, rest)
  {
    var mode := if quote == '"' then Double(false) else Single(false);
    var s := [quote] + body + [quote] + rest;
    assert s[1..] == body + ([quote] + rest);
    BodyKept(mode, body, [quote] + rest);
    assert ([quote] + rest)[1..] == rest;
  }

  lemma {:induction false} BodyKept(mode: Mode, body: string, rest: string)
    requires mode == Double(false) || mode == Single(false)
    requires forall i :: 0 <= i < |body| ==> body[i] !in "'\"\\"
    ensures Fixed(mode, body + rest) == body + Fixed(mode, rest)
    decreases body
  {
    if body == "" {
      assert body + rest == rest;
    } else {
      assert (body + rest)[0] == body[0] && (body + rest)[1..] == body[1..] + rest;
      BodyKept(mode, body[1..], rest);
    }
  }

  // ---------------------------------------------------------------------------------------
  // The scanner
  // ---------------------------------------------------------------------------------------

  predicate IsHex(c: char) {
    '0' <= c <= '9' || 'a' <= c <= 'f' || 'A' <= c <= 'F'
  }

  function ModeOf(inDouble: bool, inSingle: bool, escaped: bool): Mode {
    if inDouble then Double(escaped) else if inSingle then Single(escaped) else Outside
  }

  lemma FixedStep(mode: Mode, s: string, i: nat)
    requires i < |s|
    ensures Fixed(mode, s[i..]) == Step(mode, s[i]).1 + Fixed(Step(mode, s[i]).0, s[i + 1..])
  {
    assert s[i..][0] == s[i] && s[i..][1..] == s[i + 1..];
  }

  /** Copies up to four hexadecimal digits after an escaped u. */
  method CopyHex(runes: string, i: nat, out: string) returns (j: nat, out': string)
    requires i < |runes|
    ensures i <= j < |runes|
    ensures out' + Fixed(Single(false), runes[j + 1..]) == out + Fixed(Single(false), runes[i + 1..])
  {
    j, out' := i, out;
    var k := 0;
    while k < 4 && j + 1 < |runes| && IsHex(runes[j + 1])
      invariant k <= 4 && i <= j < |runes|
      invariant out' + Fixed(Single(false), runes[j + 1..]) == out + Fixed(Single(false), runes[i + 1..])
    {
      FixedStep(Single(false), runes, j + 1);
      ghost var rest := Fixed(Single(false), runes[j + 2..]);
      assert out' + ([runes[j + 1]] + rest) == out' + [runes[j + 1]] + rest;
      out' := out' + [runes[j + 1]];
      j, k := j + 1, k + 1;
    }
  }

  /** One character inside a single-quoted string, with the hexadecimal digits after an escaped u. */
  method ConvertOne(runes: string, i: nat, escaped: bool, out: string) returns (j: nat, mode: Mode, out': string)
    requires i < |runes|
    ensures i <= j < |runes| && (mode == Outside || mode.Single?)
    ensures out' + Fixed(mode, runes[j + 1..]) == out + Fixed(Single(escaped), runes[i..])
  {
    var r := runes[i];
    FixedStep(Single(escaped), runes, i);
    ghost var rest := Fixed(Step(Single(escaped), r).0, runes[i + 1..]);
    assert out + (Step(Single(escaped), r).1 + rest) == out + Step(Single(escaped), r).1 + rest;
    j, mode, out' := i, Single(false), out;
    if escaped {
      if r == '\'' {
        out' := out + "'";
      } else {
        out' := out + ['\\', r];
        if r == 'u' {
          j, out' := CopyHex(runes, i, out');
        }
      }
    } else if r == '\\' {
      mode := Single(true);
    } else if r == '\'' {
      out' := out + "\"";
      mode := Outside;
    } else if r == '"' {
      out' := out + ['\\', '"'];
    } else {
      out' := out + [r];
    }
  }

  /** One character outside single-quoted strings is copied, an opening single quote replaced. */
  method CopyOne(runes: string, i: nat, inDouble: bool, escaped: bool, out: string) returns (mode: Mode, out': string)
    requires i < |runes| && (escaped ==> inDouble)
    ensures mode == Step(ModeOf(inDouble, false, escaped), runes[i]).0
    ensures out' + Fixed(mode, runes[i + 1..]) == out + Fixed(ModeOf(inDouble, false, escaped), runes[i..])
  {
    var r := runes[i];
    ghost var before := ModeOf(inDouble, false, escaped);
    FixedStep(before, runes, i);
    ghost var rest := Fixed(Step(before, r).0, runes[i + 1..]);
    assert out + (Step(before, r).1 + rest) == out + Step(before, r).1 + rest;
    if inDouble {
      out' := out + [r];
      if escaped {
        mode := Double(false);
      } else if r == '\\' {
        mode := Double(true);
      } else if r == '"' {
        mode := Outside;
      } else {
        mode := Double(false);
      }
    } else if r == '"' {
      mode, out' := Double(false), out + [r];
    } else if r == '\'' {
      mode, out' := Single(false), out + "\"";
    } else {
      mode, out' := Outside, out + [r];
    }
  }

  method Scan(input: string) returns (out: string)
    ensures out == Fixed(Outside, input)
  {
    out := "";
    var inDouble, inSingle, escaped := false, false, false;
    var i := 0;
    assert input[0..] == input;
    while i < |input|
      invariant 0 <= i <= |input| && !(inDouble && inSingle) && (escaped ==> inDouble || inSingle)
      invariant out + Fixed(ModeOf(inDouble, inSingle, escaped), input[i..]) == Fixed(Outside, input)
    {
      var mode: Mode;
      if inSingle {
        i, mode, out := ConvertOne(input, i, escaped, out);
      } else {
        mode, out := CopyOne(input, i, inDouble, escaped, out);
      }
      inDouble, inSingle, escaped := mode.Double?, mode.Single?, !mode.Outside? && mode.escaped;
      i := i + 1;
    }
    if inSingle {
      out := out + "\"";
    }
  }

  /** The output says the same as the input, a second pass changes nothing, no single quote is left
      outside a string, and standard input is returned as it is. */
  method FixJSON(input: string) returns (out: string)
    ensures out == Fixed(Outside, input)
    ensures Read(Outside, out) == Read(Outside, input)
    ensures Fixed(Outside, out) == out && Standard(Outside, out)
    ensures out == input <==> Standard(Outside, input)
  {
    out := Scan(input);
    FixedSaysTheSame(Outside, input);
    FixedTwice(input);
    FixedIsStandard(Outside, input);
    UnchangedIffStandard(Outside, input);
  }
}
