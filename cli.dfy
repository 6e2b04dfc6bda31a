/** The command parser of the device commander CLI: a line is split on single
    spaces, `LedStatus` is tried first and `SayHello` only when `LedStatus`
    reports `CommandNotFound`; a parsed command builds a `ServerToDevice`
    message on top of the all-default message. */
module Cli {
  import opened Wrappers
  import opened Ints

  datatype ParseError = CommandNotFound | InvalidArgs

  datatype Command = LedStatus(ledNo: byte, on: bool) | SayHello

  /** The message to the device; `Default` is its derived default. */
  datatype ServerToDevice = ServerToDevice(setLedStatus: Option<(byte, bool)>, sendAccData: bool, sayHello: bool)

  const Default := ServerToDevice(None, false, false)

  // ---------------------------------------------------------------------------
  // `str::split(' ')`

  /** The pieces between single spaces; the empty line is one empty piece and
      two adjacent spaces give an empty piece between them. */
  function Split(s: string): (words: seq<string>)
    ensures |words| > 0
  {
    if |s| == 0 then [""]
    else
      var rest := Split(s[1..]);
      if s[0] == ' ' then [""] + rest else [[s[0]] + rest[0]] + rest[1..]
  }

  /** The inverse of `Split`: the words with one space between each two. */
  function JoinWords(words: seq<string>): string
    requires |words| > 0
  {
    if |words| == 1 then words[0] else words[0] + " " + JoinWords(words[1..])
  }

  lemma {:induction false} JoinSplit(s: string)
    ensures JoinWords(Split(s)) == s
  {
    if |s| > 0 {
      JoinSplit(s[1..]);
      var rest := Split(s[1..]);
      if s[0] == ' ' {
        assert Split(s)[1..] == rest;
        assert s == [s[0]] + s[1..];
      } else {
        var words := Split(s);
        if |rest| > 1 {
          assert words[1..] == rest[1..];
          assert JoinWords(rest) == rest[0] + " " + JoinWords(rest[1..]);
        }
        assert s == [s[0]] + s[1..];
      }
    }
  }

  lemma {:induction false} SplitWordPrefix(w: string, rest: string)
    requires ' ' !in w
    ensures Split(w + rest) == [w + Split(rest)[0]] + Split(rest)[1..]
  {
    if |w| > 0 {
      assert w[0] in w;
      assert ' ' !in w[1..] by {
        forall i | 0 <= i < |w[1..]| ensures w[1..][i] != ' ' { assert w[1..][i] == w[i + 1]; }
      }
      SplitWordPrefix(w[1..], rest);
      var t := w + rest;
      assert t == [w[0]] + (w[1..] + rest);
      SplitCons(w[0], w[1..] + rest);
      var r, sr := Split(w[1..] + rest), Split(rest);
      assert r == [w[1..] + sr[0]] + sr[1..];
      assert [w[0]] + (w[1..] + sr[0]) == w + sr[0];
    } else {
      assert w + rest == rest;
      var r := Split(rest);
      assert w + r[0] == r[0];
      assert [r[0]] + r[1..] == r;
    }
  }

  lemma {:induction false} SplitJoin(words: seq<string>)
    requires |words| > 0 && forall i :: 0 <= i < |words| ==> ' ' !in words[i]
    ensures Split(JoinWords(words)) == words
  {
    if |words| == 1 {
      SplitWordPrefix(words[0], "");
      assert words[0] + "" == words[0];
    } else {
      var tail := JoinWords(words[1..]);
      SplitJoin(words[1..]);
      assert (" " + tail)[1..] == tail;
      assert Split(" " + tail) == [""] + words[1..];
      SplitWordPrefix(words[0], " " + tail);
      assert words[0] + " " + tail == words[0] + (" " + tail);
      assert words[0] + "" == words[0];
    }
  }

  lemma SplitSpace(b: string)
    ensures Split(" " + b) == [""] + Split(b)
  {
    assert (" " + b)[1..] == b;
  }

  lemma SplitCons(c: char, t: string)
    requires c != ' '
    ensures Split([c] + t) == [[c] + Split(t)[0]] + Split(t)[1..]
  {
    assert ([c] + t)[1..] == t;
  }

  lemma ConsStep(c: char, left: seq<string>, right: seq<string>)
    requires |left| > 0 && |right| > 0
    ensures [[c] + (left + right)[0]] + (left + right)[1..] == ([[c] + left[0]] + left[1..]) + right
  {
  }

  /** Splitting at a space splits the two sides independently. */
  lemma {:induction false} SplitConcat(a: string, b: string)
    ensures Split(a + " " + b) == Split(a) + Split(b)
  {
    if |a| == 0 {
      assert a + " " + b == " " + b;
      SplitSpace(b);
    } else {
      var c, a' := a[0], a[1..];
      var t := a' + " " + b;
      SplitConcat(a', b);
      assert a + " " + b == [c] + t;
      assert a == [c] + a';
      if c == ' ' {
        SplitSpace(t);
        SplitSpace(a');
      } else {
        SplitCons(c, t);
        SplitCons(c, a');
        ConsStep(c, Split(a'), Split(b));
      }
    }
  }

  /** A word without spaces is one piece. */
  lemma SplitWord(w: string)
    requires ' ' !in w
    ensures Split(w) == [w]
  {
    SplitWordPrefix(w, "");
    assert w + "" == w;
  }

  // ---------------------------------------------------------------------------
  // `u8::from_str`: an optional `+` (not on its own), then decimal digits only,
  // leading zeros allowed, value at most 255. A `-` is an invalid digit.

  predicate IsDigit(c: char) {
    '0' <= c <= '9'
  }

  predicate AllDigits(s: string) {
    forall i :: 0 <= i < |s| ==> IsDigit(s[i])
  }

  function DigitsValue(s: string): nat
    requires AllDigits(s)
  {
    if |s| == 0 then 0 else DigitsValue(s[..|s| - 1]) * 10 + (s[|s| - 1] as int - '0' as int)
  }

  function ParseU8(s: string): (r: Option<byte>)
    ensures r.Some? ==> 0 < |s| && (s[0] == '+' || IsDigit(s[0]))
  {
    if |s| == 0 then None
    else
      var digits := if s[0] == '+' then s[1..] else s;
      if |digits| == 0 || !AllDigits(digits) then None
      else if DigitsValue(digits) <= 255 then Some(DigitsValue(digits))
      else None
  }

  /** Decimal text of a number, without leading zeros: the partner of `ParseU8`. */
  function ShowNat(n: nat): (s: string)
    ensures |s| > 0 && AllDigits(s) && ' ' !in s
  {
    if n < 10 then [('0' as int + n) as char] else ShowNat(n / 10) + [('0' as int + n % 10) as char]
  }

  lemma {:induction false} ShowNatValue(n: nat)
    ensures DigitsValue(ShowNat(n)) == n
  {
    if n >= 10 {
      ShowNatValue(n / 10);
      var s := ShowNat(n);
      assert s[..|s| - 1] == ShowNat(n / 10);
    } else {
      assert ShowNat(n)[..0] == [];
    }
  }

  /** `n` zeros. */
  function Zeros(z: nat): (s: string)
    ensures |s| == z && AllDigits(s) && ' ' !in s
  {
    if z == 0 then "" else Zeros(z - 1) + "0"
  }

  /** Leading zeros do not change the value. */
  lemma {:induction false} ZerosValue(z: nat, t: string)
    requires AllDigits(t)
    ensures AllDigits(Zeros(z) + t) && DigitsValue(Zeros(z) + t) == DigitsValue(t)
    decreases z + |t|
  {
    var s := Zeros(z) + t;
    if |t| > 0 {
      assert s[..|s| - 1] == Zeros(z) + t[..|t| - 1];
      ZerosValue(z, t[..|t| - 1]);
    } else if z > 0 {
      assert s == Zeros(z - 1) + "0";
      assert s[..|s| - 1] == Zeros(z - 1) + "";
      ZerosValue(z - 1, "");
    }
  }

  /** Every non-empty digit text is its value's decimal text behind some
      leading zeros. */
  lemma {:induction false} Canonical(t: string) returns (z: nat)
    requires |t| > 0 && AllDigits(t)
    ensures t == Zeros(z) + ShowNat(DigitsValue(t))
    decreases |t|
  {
    var init, c := t[..|t| - 1], t[|t| - 1];
    var d := c as int - '0' as int;
    assert t == init + [c];
    DigitText(c);
    if |init| == 0 {
      assert t == [c];
      z := 0;
    } else {
      var z1 := Canonical(init);
      z := CanonicalSnoc(init, c, z1);
    }
  }

  /** The step of `Canonical`: one more digit at the end. */
  lemma CanonicalSnoc(init: string, c: char, z1: nat) returns (z: nat)
    requires |init| > 0 && AllDigits(init) && IsDigit(c)
    requires init == Zeros(z1) + ShowNat(DigitsValue(init))
    ensures AllDigits(init + [c]) && init + [c] == Zeros(z) + ShowNat(DigitsValue(init + [c]))
  {
    var t := init + [c];
    var v1, d := DigitsValue(init), c as int - '0' as int;
    assert t[..|t| - 1] == init;
    assert DigitsValue(t) == v1 * 10 + d;
    DigitText(c);
    if v1 == 0 {
      z := z1 + 1;
      assert ShowNat(0) == "0";
      assert Zeros(z) == Zeros(z1) + "0";
    } else {
      ShowNatSnoc(v1, d);
      z := z1;
    }
  }

  /** A digit is the text of its value. */
  lemma DigitText(c: char)
    requires IsDigit(c)
    ensures ShowNat(c as int - '0' as int) == [c]
  {
  }

  /** Appending a digit to a positive number appends its character. */
  lemma ShowNatSnoc(v: nat, d: nat)
    requires v > 0 && d < 10
    ensures ShowNat(v * 10 + d) == ShowNat(v) + ShowNat(d)
  {
    var x := v * 10 + d;
    assert x / 10 == v && x % 10 == d;
  }

  /** `n`'s decimal text behind `z` leading zeros, with a `+` in front when
      `plus` holds. */
  function Padded(z: nat, plus: bool, n: nat): string {
    (if plus then "+" else "") + (Zeros(z) + ShowNat(n))
  }

  /** Accepted text is an optional `+`, leading zeros and the value's
      decimal text. */
  lemma ParseU8Accepted(s: string, n: byte) returns (z: nat, plus: bool)
    requires ParseU8(s) == Some(n)
    ensures s == Padded(z, plus, n)
  {
    var digits := if s[0] == '+' then s[1..] else s;
    z := Canonical(digits);
    plus := s[0] == '+';
    if plus {
      assert s == "+" + digits;
    }
  }

  /** Digit text of a value up to 255 is accepted, with or without a `+`. */
  lemma ParseU8Digits(t: string)
    requires |t| > 0 && AllDigits(t) && DigitsValue(t) <= 255
    ensures ParseU8(t) == Some(DigitsValue(t))
    ensures ParseU8("+" + t) == Some(DigitsValue(t))
  {
    assert IsDigit(t[0]);
    assert ("+" + t)[1..] == t;
  }

  /** Every such text is accepted with that value. */
  lemma ParseU8Padded(z: nat, plus: bool, n: byte)
    ensures ParseU8(Padded(z, plus, n)) == Some(n)
  {
    var t := Zeros(z) + ShowNat(n);
    ZerosValue(z, ShowNat(n));
    ShowNatValue(n);
    ParseU8Digits(t);
    if plus {
      assert Padded(z, plus, n) == "+" + t;
    } else {
      assert Padded(z, plus, n) == t;
    }
  }

  /** `u8::from_str` accepts exactly an optional `+`, any number of leading
      zeros and the decimal text of a value up to 255, and returns that
      value. */
  lemma ParseU8Iff(s: string, n: byte)
    ensures ParseU8(s) == Some(n) <==> exists z: nat, plus: bool :: s == Padded(z, plus, n)
  {
    if ParseU8(s) == Some(n) {
      var z, plus := ParseU8Accepted(s, n);
    }
    if exists z: nat, plus: bool :: s == Padded(z, plus, n) {
      var z: nat, plus: bool :| s == Padded(z, plus, n);
      ParseU8Padded(z, plus, n);
    }
  }

  lemma ParseShowU8(n: byte)
    ensures ParseU8(ShowNat(n)) == Some(n)
  {
    ShowNatValue(n);
  }

  // ---------------------------------------------------------------------------
  // The parsers, over the words of the line.

  /** `chunks.next()` for the `i`-th call. */
  function Nth(words: seq<string>, i: nat): Option<string> {
    if i < |words| then Some(words[i]) else None
  }

  function OnOff(word: Option<string>): Option<bool> {
    if word == Some("on") then Some(true) else if word == Some("off") then Some(false) else None
  }

  function ParseLed(words: seq<string>): Result<Command, ParseError> {
    var led := match Nth(words, 1) case Some(a) => ParseU8(a) case None => None;
    var on := OnOff(Nth(words, 2));
    if Nth(words, 0) != Some("led") then Err(CommandNotFound)
    else if led.Some? && 1 <= led.value <= 4 && on.Some? then Ok(LedStatus(led.value, on.value))
    else Err(InvalidArgs)
  }

  function ParseHello(words: seq<string>): Result<Command, ParseError> {
    if Nth(words, 0) == Some("hello") then Ok(SayHello) else Err(CommandNotFound)
  }

  /** `or_else(parse_next::<C>(..))`: try the next parser only on `CommandNotFound`.
      The ensures spell out the three cases so that the lemmas about `Parse`
      can use them without unfolding the match. */
  function OrElseNext(first: Result<Command, ParseError>, next: Result<Command, ParseError>): (r: Result<Command, ParseError>)
    ensures first.Ok? ==> r == first
    ensures first == Err(InvalidArgs) ==> r == first
    ensures first == Err(CommandNotFound) ==> r == next
  {
    match first
    case Ok(_) => first
    case Err(CommandNotFound) => next
    case Err(e) => Err(e)
  }

  function ParseWords(words: seq<string>): Result<Command, ParseError> {
    OrElseNext(ParseLed(words), ParseHello(words))
  }

  /** `CommandParser::parse`. */
  function Parse(line: string): Result<Command, ParseError> {
    ParseWords(Split(line))
  }

  // ---------------------------------------------------------------------------
  // What a line parses to.

  /** Exactly the lines `led N on` / `led N off` with N in 1..=4 (as `u8` text)
      are LED commands. */
  lemma ParseLedStatus(line: string, n: byte, on: bool)
    ensures Parse(line) == Ok(LedStatus(n, on)) <==>
      var w := Split(line);
      && |w| >= 3 && w[0] == "led" && ParseU8(w[1]) == Some(n) && 1 <= n <= 4
      && w[2] == (if on then "on" else "off")
  {
  }

  /** A line whose first word is `led` is an LED command or `InvalidArgs`:
      never `CommandNotFound`, so `SayHello` is never tried. */
  lemma LedNeverFallsThrough(line: string)
    requires Split(line)[0] == "led"
    ensures Parse(line) == ParseLed(Split(line))
    ensures Parse(line).Err? ==> Parse(line).error == InvalidArgs
    ensures Parse(line) != Ok(SayHello)
  {
  }

  lemma HelloIsSayHello(line: string)
    requires Split(line)[0] == "hello"
    ensures Parse(line) == Ok(SayHello)
  {
  }

  /** `CommandNotFound` exactly when the first word is neither `led` nor `hello`. */
  lemma NotFoundIff(line: string)
    ensures Parse(line) == Err(CommandNotFound) <==> Split(line)[0] != "led" && Split(line)[0] != "hello"
  {
  }

  /** Words after the ones a command reads do not matter. */
  lemma ExtraWordsIgnored(line: string, extra: string)
    requires |Split(line)| >= 3 || Split(line)[0] != "led"
    ensures Parse(line + " " + extra) == Parse(line)
  {
    SplitConcat(line, extra);
    var w, more := Split(line), Split(extra);
    assert (w + more)[0] == w[0];
    if |w| >= 3 {
      assert (w + more)[1] == w[1] && (w + more)[2] == w[2];
    }
  }

  // ---------------------------------------------------------------------------
  // Lines from the command's own help and edge cases.

  lemma Split2(a: string, b: string)
    requires ' ' !in a && ' ' !in b
    ensures Split(a + " " + b) == [a, b]
  {
    SplitConcat(a, b);
    SplitWord(a);
    SplitWord(b);
  }

  lemma Split3(a: string, b: string, c: string)
    requires ' ' !in a && ' ' !in b && ' ' !in c
    ensures Split(a + " " + b + " " + c) == [a, b, c]
  {
    SplitConcat(a + " " + b, c);
    Split2(a, b);
    SplitWord(c);
  }

  lemma Split4(a: string, b: string, c: string, d: string)
    requires ' ' !in a && ' ' !in b && ' ' !in c && ' ' !in d
    ensures Split(a + " " + b + " " + c + " " + d) == [a, b, c, d]
  {
    SplitConcat(a + " " + b + " " + c, d);
    Split3(a, b, c);
    SplitWord(d);
  }

  /** A line of three words parses as those words. */
  lemma ParseLine3(a: string, b: string, c: string, line: string)
    requires ' ' !in a && ' ' !in b && ' ' !in c && line == a + " " + b + " " + c
    ensures Parse(line) == ParseWords([a, b, c])
  {
    Split3(a, b, c);
  }

  lemma ParseSmallNumbers()
    ensures ParseU8("0") == Some(0) && ParseU8("1") == Some(1) && ParseU8("4") == Some(4)
    ensures ParseU8("5") == Some(5) && ParseU8("+2") == Some(2)
    ensures ParseU8("") == None && ParseU8("-1") == None
  {
    assert "0"[..0] == "" && "1"[..0] == "" && "4"[..0] == "" && "5"[..0] == "";
    assert "+2"[1..] == "2" && "2"[..0] == "";
    assert "-1"[0] == '-' && !IsDigit('-');
  }

  lemma LedOneOn()
    ensures Parse("led 1 on") == Ok(LedStatus(1, true))
  {
    Split3("led", "1", "on");
    assert "led 1 on" == "led" + " " + "1" + " " + "on";
    ParseSmallNumbers();
  }

  lemma LedFourOff(line: string)
    requires line == "led 4 off"
    ensures Parse(line) == Ok(LedStatus(4, false))
  {
    ParseLine3("led", "4", "off", line);
    ParseSmallNumbers();
  }

  /** `u8` text may carry a leading `+`. */
  lemma LedPlusTwo()
    ensures Parse("led +2 on") == Ok(LedStatus(2, true))
  {
    Split3("led", "+2", "on");
    assert "led +2 on" == "led" + " " + "+2" + " " + "on";
    ParseSmallNumbers();
  }

  lemma HelloThere()
    ensures Parse("hello") == Ok(SayHello)
    ensures Parse("hello there") == Ok(SayHello)
  {
    SplitWord("hello");
    Split2("hello", "there");
    assert "hello there" == "hello" + " " + "there";
  }

  lemma LedTrailingWord()
    ensures Parse("led 1 on x") == Ok(LedStatus(1, true))
  {
    Split4("led", "1", "on", "x");
    assert "led 1 on x" == "led" + " " + "1" + " " + "on" + " " + "x";
    ParseSmallNumbers();
  }

  /** The empty line is one empty word, which no command claims. */
  lemma UnknownLines()
    ensures Parse("") == Err(CommandNotFound)
    ensures Parse("foo") == Err(CommandNotFound)
  {
    SplitWord("foo");
  }

  lemma MissingArguments()
    ensures Parse("led") == Err(InvalidArgs)
    ensures Parse("led 1") == Err(InvalidArgs)
  {
    SplitWord("led");
    Split2("led", "1");
    assert "led 1" == "led" + " " + "1";
  }

  /** No number outside 1..=4 names an LED, whatever the state word: 0 and
      5..=255 parse as a `u8` but fail the range check, and larger numbers do
      not parse at all. */
  lemma LedOutOfRange(n: nat, state: string)
    requires (n == 0 || n >= 5) && ' ' !in state
    ensures Parse("led " + ShowNat(n) + " " + state) == Err(InvalidArgs)
  {
    var w := ShowNat(n);
    ParseLine3("led", w, state, "led " + w + " " + state);
    ShowNatValue(n);
    assert w[0] != '+';
  }

  /** `u8` text has no sign other than `+`: a `-` in front of anything is
      refused. */
  lemma LedNegative(w: string, state: string)
    requires ' ' !in w && ' ' !in state
    ensures Parse("led -" + w + " " + state) == Err(InvalidArgs)
  {
    var num := "-" + w;
    assert "led -" + w + " " + state == "led" + " " + num + " " + state;
    ParseLine3("led", num, state, "led -" + w + " " + state);
    assert num[0] == '-';
  }

  /** The state word must be `on` or `off`. */
  lemma LedBadState(line: string)
    requires line == "led 1 maybe"
    ensures Parse(line) == Err(InvalidArgs)
  {
    ParseLine3("led", "1", "maybe", line);
    ParseSmallNumbers();
  }

  /** Two spaces put an empty word in the number's place. */
  lemma DoubleSpace()
    ensures Split("led  1 on") == ["led", "", "1", "on"]
    ensures Parse("led  1 on") == Err(InvalidArgs)
  {
    Split4("led", "", "1", "on");
    assert "led  1 on" == "led" + " " + "" + " " + "1" + " " + "on";
    ParseSmallNumbers();
  }

  /** A number above 255 does not fit a `u8`. */
  lemma TooBigForU8(s: string, line: string)
    requires s == "256" && line == "led 256 on"
    ensures ParseU8(s) == None
    ensures Parse(line) == Err(InvalidArgs)
  {
    assert s == ShowNat(256) by {
      assert ShowNat(25) == "25" by {
        assert ShowNat(2) == "2";
      }
    }
    ShowNatValue(256);
    assert s[0] != '+';
    LedOutOfRange(256, "on");
    assert line == "led " + ShowNat(256) + " " + "on";
  }

  // ---------------------------------------------------------------------------
  // Messages.

  /** `build_message`: the command's field on top of the default message. */
  function BuildMessage(c: Command): (msg: ServerToDevice)
    ensures !msg.sendAccData
    ensures c.LedStatus? ==> msg == Default.(setLedStatus := Some((c.ledNo, c.on)))
    ensures c.SayHello? ==> msg == Default.(sayHello := true)
  {
    match c
    case LedStatus(ledNo, on) => ServerToDevice(Some((ledNo, on)), false, false)
    case SayHello => ServerToDevice(None, false, true)
  }

  /** What command a message carries: the partner of `BuildMessage`. */
  function MessageCommand(msg: ServerToDevice): Option<Command> {
    if msg.setLedStatus.Some? && !msg.sayHello && !msg.sendAccData
    then Some(LedStatus(msg.setLedStatus.value.0, msg.setLedStatus.value.1))
    else if msg.setLedStatus.None? && msg.sayHello && !msg.sendAccData then Some(SayHello)
    else None
  }

  /** Every message built names exactly one command, the one it was built from. */
  lemma MessageRoundTrip(c: Command)
    ensures MessageCommand(BuildMessage(c)) == Some(c)
  {
  }

  /** The text of a command, in the form the parser accepts. */
  function FormatCommand(c: Command): string {
    match c
    case LedStatus(n, on) => "led " + ShowNat(n) + " " + (if on then "on" else "off")
    case SayHello => "hello"
  }

  /** Formatting and parsing round-trip for every LED number the parser accepts. */
  lemma ParseFormat(c: Command)
    requires c.LedStatus? ==> 1 <= c.ledNo <= 4
    ensures Parse(FormatCommand(c)) == Ok(c)
  {
    match c {
      case LedStatus(n, on) =>
        var words := ["led", ShowNat(n), if on then "on" else "off"];
        var state := if on then "on" else "off";
        assert JoinWords(words[2..]) == state;
        assert JoinWords(words[1..]) == ShowNat(n) + " " + state;
        assert JoinWords(words) == "led" + " " + (ShowNat(n) + " " + state);
        assert FormatCommand(c) == JoinWords(words);
        SplitJoin(words);
        ParseShowU8(n);
      case SayHello =>
        SplitJoin(["hello"]);
    }
  }
}
