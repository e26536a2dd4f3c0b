/**
 The flags qn-bd takes out of a command line before it passes the rest to bd:
 `--justify` and `--override`, each as `--flag value` or `--flag=value`.
 */
module Flags {
  import opened Wrappers

  datatype Flag = Justify | Override

  function Name(f: Flag): string {
    match f
    case Justify => "--justify"
    case Override => "--override"
  }

  /** The text after the first "=". */
  function AfterEquals(token: string): string {
    if token == "" then "" else if token[0] == '=' then token[1..] else AfterEquals(token[1..])
  }

  predicate IsInline(f: Flag, token: string) {
    Name(f) + "=" <= token
  }

  datatype Stripped = Stripped(rest: seq<string>, justify: Option<string>, override_: Option<string>) {

    function Get(f: Flag): Option<string> {
      match f
      case Justify => justify
      case Override => override_
    }

    function Set(f: Flag, value: string): Stripped {
      match f
      case Justify => this.(justify := Some(value))
      case Override => this.(override_ := Some(value))
    }

    function Keep(token: string): Stripped {
      this.(rest := rest + [token])
    }
  }

  /** The loop, as a function of what it has gathered and the tokens still to read. */
  function StripFrom(acc: Stripped, args: seq<string>): Stripped
    decreases |args|
  {
    if args == [] then acc
    else if args[0] == "--justify" && |args| > 1 then StripFrom(acc.Set(Justify, args[1]), args[2..])
    else if "--justify=" <= args[0] then StripFrom(acc.Set(Justify, AfterEquals(args[0])), args[1..])
    else if args[0] == "--override" && |args| > 1 then StripFrom(acc.Set(Override, args[1]), args[2..])
    else if "--override=" <= args[0] then StripFrom(acc.Set(Override, AfterEquals(args[0])), args[1..])
    else StripFrom(acc.Keep(args[0]), args[1..])
  }

  const NOTHING := Stripped([], None, None)

  function Strip(args: seq<string>): Stripped {
    StripFrom(NOTHING, args)
  }

  class Invocation {
    var bdArgs: seq<string>

    constructor (args: seq<string>)
      ensures bdArgs == args
    {
      bdArgs := args;
    }

    /** Take the flags out of the argument list in place and report their values. */
    method StripFlags() returns (justify: Option<string>, override_: Option<string>)
      modifies this
      ensures Stripped(bdArgs, justify, override_) == Strip(old(bdArgs))
    {
      justify, override_ := None, None;
      var strippedArgs: seq<string> := [];
      var i := 0;
      while i < |bdArgs|
        invariant 0 <= i <= |bdArgs| && bdArgs == old(bdArgs)
        invariant StripFrom(Stripped(strippedArgs, justify, override_), bdArgs[i..]) == Strip(bdArgs)
        decreases |bdArgs| - i
      {
        var token := bdArgs[i];
        assert bdArgs[i..][1..] == bdArgs[i + 1..];
        assert |bdArgs[i..]| > 1 ==> bdArgs[i..][2..] == bdArgs[i + 2..];
        if token == "--justify" && i + 1 < |bdArgs| {
          justify := Some(bdArgs[i + 1]);
          i := i + 2;
        } else if "--justify=" <= token {
          justify := Some(AfterEquals(token));
          i := i + 1;
        } else if token == "--override" && i + 1 < |bdArgs| {
          override_ := Some(bdArgs[i + 1]);
          i := i + 2;
        } else if "--override=" <= token {
          override_ := Some(AfterEquals(token));
          i := i + 1;
        } else {
          strippedArgs := strippedArgs + [token];
          i := i + 1;
        }
      }
      bdArgs := strippedArgs;
    }
  }

  // Command lines as sequences of words and flag units

  predicate IsBareFlag(token: string) {
    token == "--justify" || token == "--override"
  }

  /** A token that is no flag in any spelling. */
  predicate IsPlain(token: string) {
    !IsBareFlag(token) && !("--justify=" <= token) && !("--override=" <= token)
  }

  /** A plain word, or a flag with its value in either spelling. */
  datatype Item = Word(token: string) | Separate(flag: Flag, value: string) | Inline(flag: Flag, value: string) {

    function Tokens(): seq<string> {
      match this
      case Word(t) => [t]
      case Separate(f, v) => [Name(f), v]
      case Inline(f, v) => [Name(f) + "=" + v]
    }

    predicate Valid() {
      Word? ==> IsPlain(token)
    }

    function ApplyTo(acc: Stripped): Stripped {
      match this
      case Word(t) => acc.Keep(t)
      case Separate(f, v) => acc.Set(f, v)
      case Inline(f, v) => acc.Set(f, v)
    }
  }

  function Render(items: seq<Item>): seq<string> {
    if items == [] then [] else items[0].Tokens() + Render(items[1..])
  }

  /** The plain words, in order. */
  function Words(items: seq<Item>): seq<string> {
    if items == [] then []
    else (if items[0].Word? then [items[0].token] else []) + Words(items[1..])
  }

  /** The value of the last unit of a flag, or `default` if there is none. */
  function LastValue(items: seq<Item>, f: Flag, default: Option<string>): Option<string> {
    if items == [] then default
    else LastValue(items[1..], f, if !items[0].Word? && items[0].flag == f then Some(items[0].value) else default)
  }

  lemma {:induction false} AfterEqualsOf(name: string, value: string)
    requires '=' !in name
    ensures AfterEquals(name + "=" + value) == value
  {
    var token := name + "=" + value;
    if name == "" {
      assert token[1..] == value;
    } else {
      assert token[0] == name[0] && token[1..] == name[1..] + "=" + value;
      AfterEqualsOf(name[1..], value);
    }
  }

  lemma NamesDiffer()
    ensures "--justify"[2] != "--override"[2]
    ensures "--justify=" == "--justify" + "=" && "--override=" == "--override" + "="
    ensures "--justify" != "--override"
  {
    assert "--justify"[2] == 'j' && "--override"[2] == 'o';
  }

  lemma InlineIsItsFlag(f: Flag, v: string)
    ensures var token := Name(f) + "=" + v;
            && !IsBareFlag(token)
            && ("--justify=" <= token <==> f == Justify)
            && ("--override=" <= token <==> f == Override)
  {
    NamesDiffer();
    var token := Name(f) + "=" + v;
    assert |token| == |Name(f)| + 1 + |v| && token[2] == Name(f)[2] && token[|Name(f)|] == '=';
    assert |"--override"| == 10 && |"--justify"| == 9;
    match f
    case Justify => assert token[..10] == "--justify=";
    case Override => assert token[..11] == "--override=";
  }

  /** Reading one item of a rendered command line. */
  lemma StripItem(acc: Stripped, item: Item, tail: seq<string>)
    requires item.Valid()
    ensures StripFrom(acc, item.Tokens() + tail) == StripFrom(item.ApplyTo(acc), tail)
  {
    NamesDiffer();
    var args := item.Tokens() + tail;
    match item
    case Word(t) =>
      assert args[0] == t && args[1..] == tail;
    case Separate(f, v) =>
      assert args[0] == Name(f) && args[1] == v && args[2..] == tail;
      assert f == Override ==> !("--justify=" <= args[0]) by {
        assert "--justify="[2] != "--override"[2];
      }
    case Inline(f, v) =>
      AfterEqualsOf(Name(f), v);
      InlineIsItsFlag(f, v);
      assert args[0] == Name(f) + "=" + v && args[1..] == tail;
  }

  /** What stripping should leave: the words, the dangling flag, and the last value of each flag. */
  function Expected(acc: Stripped, items: seq<Item>, dangling: seq<string>): Stripped {
    Stripped(acc.rest + Words(items) + dangling, LastValue(items, Justify, acc.justify),
             LastValue(items, Override, acc.override_))
  }

  lemma ExpectedStep(acc: Stripped, items: seq<Item>, dangling: seq<string>)
    requires items != []
    ensures Expected(items[0].ApplyTo(acc), items[1..], dangling) == Expected(acc, items, dangling)
  {
    var words := Words(items[1..]);
    match items[0]
    case Word(t) => assert acc.rest + [t] + words == acc.rest + ([t] + words);
    case Separate(f, v) => assert [] + words == words;
    case Inline(f, v) => assert [] + words == words;
  }

  lemma BareFlagIsNotInline(token: string)
    requires IsBareFlag(token)
    ensures !("--justify=" <= token) && !("--override=" <= token)
  {
    assert |"--justify"| == 9 && |"--justify="| == 10 && |"--override"| == 10 && |"--override="| == 11;
    assert "--override"[2] != "--justify="[2];
  }

  lemma StripDangling(acc: Stripped, dangling: seq<string>)
    requires dangling == [] || (|dangling| == 1 && IsBareFlag(dangling[0]))
    ensures StripFrom(acc, dangling) == acc.(rest := acc.rest + dangling)
  {
    if dangling == [] {
      assert acc.rest + dangling == acc.rest;
    } else {
      BareFlagIsNotInline(dangling[0]);
      assert dangling == [dangling[0]] && dangling[1..] == [];
      assert StripFrom(acc, dangling) == StripFrom(acc.Keep(dangling[0]), dangling[1..]);
    }
  }

  /**
   Stripping any mix of plain words and flag units leaves the words and reports the last
   value of each flag: flags added to a flag-free command line, in any number, position and
   spelling, come off again without a trace. A bare flag at the very end has no value and stays.
   */
  lemma {:induction false} StripRendered(acc: Stripped, items: seq<Item>, dangling: seq<string>)
    requires forall item :: item in items ==> item.Valid()
    requires dangling == [] || (|dangling| == 1 && IsBareFlag(dangling[0]))
    ensures StripFrom(acc, Render(items) + dangling) == Expected(acc, items, dangling)
    decreases |items|
  {
    if items == [] {
      assert Render(items) + dangling == dangling && acc.rest + Words(items) == acc.rest;
      StripDangling(acc, dangling);
    } else {
      var rest := Render(items[1..]) + dangling;
      assert Render(items) + dangling == items[0].Tokens() + rest;
      assert items[0] in items;
      StripItem(acc, items[0], rest);
      StripRendered(items[0].ApplyTo(acc), items[1..], dangling);
      ExpectedStep(acc, items, dangling);
    }
  }

  lemma FirstItem(args: seq<string>) returns (item: Item)
    requires args != [] && !(|args| == 1 && IsBareFlag(args[0]))
    ensures item.Valid() && item.Tokens() <= args && item.Tokens() != []
  {
    NamesDiffer();
    var token := args[0];
    if IsBareFlag(token) {
      item := Separate(if token == "--justify" then Justify else Override, args[1]);
    } else if IsInline(Justify, token) {
      item := Inline(Justify, token[10..]);
      assert token == "--justify=" + token[10..];
    } else if IsInline(Override, token) {
      item := Inline(Override, token[11..]);
      assert token == "--override=" + token[11..];
    } else {
      item := Word(token);
    }
  }

  /** Every command line is such a mix, possibly with a bare flag left over at the end. */
  lemma {:induction false} EveryLineIsRendered(args: seq<string>) returns (items: seq<Item>, dangling: seq<string>)
    ensures forall item :: item in items ==> item.Valid()
    ensures dangling == [] || (|dangling| == 1 && IsBareFlag(dangling[0]))
    ensures args == Render(items) + dangling
    decreases |args|
  {
    if args == [] {
      items, dangling := [], [];
    } else if |args| == 1 && IsBareFlag(args[0]) {
      items, dangling := [], args;
    } else {
      var head := FirstItem(args);
      var n := |head.Tokens()|;
      items, dangling := EveryLineIsRendered(args[n..]);
      assert args == head.Tokens() + args[n..];
      var all := [head] + items;
      assert all[1..] == items;
      assert Render(all) + dangling == head.Tokens() + (Render(items) + dangling);
      items := all;
    }
  }

  lemma {:induction false} WordsArePlain(items: seq<Item>)
    requires forall item :: item in items ==> item.Valid()
    ensures forall t :: t in Words(items) ==> IsPlain(t)
  {
    if items != [] {
      WordsArePlain(items[1..]);
      assert items[0] in items;
    }
  }

  lemma {:induction false} PlainIsRendered(words: seq<string>) returns (items: seq<Item>)
    requires forall t :: t in words ==> IsPlain(t)
    ensures forall item :: item in items ==> item.Valid() && item.Word?
    ensures Render(items) == words && Words(items) == words
  {
    if words == [] {
      items := [];
    } else {
      var rest := PlainIsRendered(words[1..]);
      items := [Word(words[0])] + rest;
      assert items[1..] == rest;
    }
  }

  /** On every argument list: what is left is plain, except that a bare flag may be its last token. */
  lemma StrippedIsPlain(args: seq<string>)
    ensures forall i :: 0 <= i < |Strip(args).rest| ==>
              IsPlain(Strip(args).rest[i]) || (i == |Strip(args).rest| - 1 && IsBareFlag(Strip(args).rest[i]))
  {
    var items, dangling := EveryLineIsRendered(args);
    StripRendered(NOTHING, items, dangling);
    WordsArePlain(items);
    assert Strip(args).rest == Words(items) + dangling;
  }

  /** On every argument list: stripping again changes nothing. */
  lemma StripIsIdempotent(args: seq<string>)
    ensures Strip(Strip(args).rest).rest == Strip(args).rest
  {
    var items, dangling := EveryLineIsRendered(args);
    StripRendered(NOTHING, items, dangling);
    WordsArePlain(items);
    var words := PlainIsRendered(Words(items));
    StripRendered(NOTHING, words, dangling);
    assert Strip(args).rest == Render(words) + dangling;
  }

  // The spellings, literally

  lemma StripUnit(item: Item)
    requires !item.Word?
    ensures Strip(item.Tokens()) == item.ApplyTo(NOTHING)
  {
    assert item.Tokens() + [] == item.Tokens();
    StripItem(NOTHING, item, []);
  }

  /** Each flag in each spelling, and a bare flag with no value to take. */
  lemma Spellings(value: string)
    ensures Strip(["--justify", value]) == Stripped([], Some(value), None)
    ensures Strip(["--override", value]) == Stripped([], None, Some(value))
    ensures Strip(["--justify" + "=" + value]) == Stripped([], Some(value), None)
    ensures Strip(["--override" + "=" + value]) == Stripped([], None, Some(value))
    ensures Strip(["--justify"]) == Stripped(["--justify"], None, None)
    ensures Strip(["--override"]) == Stripped(["--override"], None, None)
  {
    StripUnit(Separate(Justify, value));
    StripUnit(Separate(Override, value));
    StripUnit(Inline(Justify, value));
    StripUnit(Inline(Override, value));
    StripDangling(NOTHING, ["--justify"]);
    StripDangling(NOTHING, ["--override"]);
  }
}
