/** The string operations the launcher and the scheduler build their specifications from: split and join on a
    single character, `str` of a natural number, and `int` of a string (ASCII digits and blanks). */
module Text {
  import opened Wrappers

  // ---------------------------------------------------------------------------------------------
  // split and join
  // ---------------------------------------------------------------------------------------------

  /** `text.split(sep)`: always at least one part, and no part holds the separator. */
  function Split(text: string, sep: char): (parts: seq<string>)
    ensures |parts| >= 1 && FreeOf(parts, sep)
    ensures |parts| == 1 <==> sep !in text
  {
    if text == "" then [""]
    else
      var rest := Split(text[1..], sep);
      if text[0] == sep then [""] + rest else [[text[0]] + rest[0]] + rest[1..]
  }

  ghost predicate FreeOf(parts: seq<string>, sep: char) {
    forall k :: 0 <= k < |parts| ==> sep !in parts[k]
  }

  /** `sep.join(parts)`. */
  function Join(parts: seq<string>, sep: char): string {
    if parts == [] then ""
    else if |parts| == 1 then parts[0]
    else parts[0] + [sep] + Join(parts[1..], sep)
  }

  lemma JoinCons(c: char, parts: seq<string>, sep: char)
    requires parts != []
    ensures Join([[c] + parts[0]] + parts[1..], sep) == [c] + Join(parts, sep)
  {
    assert ([[c] + parts[0]] + parts[1..])[1..] == parts[1..];
  }

  lemma JoinBlank(parts: seq<string>, sep: char)
    requires parts != []
    ensures Join([""] + parts, sep) == [sep] + Join(parts, sep)
  {
    assert ([""] + parts)[1..] == parts;
  }

  /** Splitting takes a text apart at every separator and nowhere else. */
  lemma {:induction false} JoinOfSplit(text: string, sep: char)
    ensures Join(Split(text, sep), sep) == text
  {
    hide Join;
    if text == "" {
      assert Split(text, sep) == [""];
      JoinOne("", sep);
    } else {
      JoinOfSplit(text[1..], sep);
      JoinCons(text[0], Split(text[1..], sep), sep);
      JoinBlank(Split(text[1..], sep), sep);
      assert text == [text[0]] + text[1..];
    }
  }

  lemma JoinOne(part: string, sep: char)
    ensures Join([part], sep) == part
  {
  }

  lemma {:induction false} SplitFirst(first: string, sep: char, rest: string)
    requires sep !in first
    ensures Split(first + [sep] + rest, sep) == [first] + Split(rest, sep)
  {
    if first == "" {
      assert first + [sep] + rest == [sep] + rest && ([sep] + rest)[1..] == rest;
    } else {
      SplitFirst(first[1..], sep, rest);
      assert (first + [sep] + rest)[1..] == first[1..] + [sep] + rest;
      assert first == [first[0]] + first[1..];
    }
  }

  lemma {:induction false} SplitSingle(text: string, sep: char)
    requires sep !in text
    ensures Split(text, sep) == [text]
  {
    if text != "" {
      SplitSingle(text[1..], sep);
      assert text == [text[0]] + text[1..];
    }
  }

  /** Parts without the separator survive joining and splitting. */
  lemma {:induction false} SplitOfJoin(parts: seq<string>, sep: char)
    requires parts != [] && FreeOf(parts, sep)
    ensures Split(Join(parts, sep), sep) == parts
  {
    if |parts| == 1 {
      SplitSingle(parts[0], sep);
    } else {
      assert FreeOf(parts[1..], sep);
      SplitOfJoin(parts[1..], sep);
      SplitFirst(parts[0], sep, Join(parts[1..], sep));
      assert parts == [parts[0]] + parts[1..];
    }
  }

  lemma {:induction false} JoinFreeOf(parts: seq<string>, sep: char, other: char)
    requires FreeOf(parts, other) && other != sep
    ensures other !in Join(parts, sep)
  {
    if |parts| > 1 { JoinFreeOf(parts[1..], sep, other); }
  }

  lemma {:induction false} JoinGrows(parts: seq<string>, last: string, sep: char)
    requires parts != []
    ensures Join(parts + [last], sep) == Join(parts, sep) + [sep] + last
  {
    if |parts| > 1 {
      JoinGrows(parts[1..], last, sep);
      assert (parts + [last])[1..] == parts[1..] + [last];
    } else {
      assert (parts + [last])[1..] == [last];
    }
  }

  // ---------------------------------------------------------------------------------------------
  // Numbers
  // ---------------------------------------------------------------------------------------------

  predicate IsDigit(c: char) {
    '0' <= c <= '9'
  }

  ghost predicate AllDigits(text: string) {
    forall k :: 0 <= k < |text| ==> IsDigit(text[k])
  }

  /** `str(n)`. */
  function NatToString(n: nat): (text: string)
    ensures |text| >= 1 && AllDigits(text)
  {
    if n < 10 then ['0' + n as char] else NatToString(n / 10) + ['0' + (n % 10) as char]
  }

  /** The blanks `int` ignores around a number. */
  predicate IsBlank(c: char) {
    c == ' ' || 9 <= c as int <= 13
  }

  function Strip(text: string): string {
    if text == "" then text
    else if IsBlank(text[0]) then Strip(text[1..])
    else if IsBlank(text[|text| - 1]) then Strip(text[..|text| - 1])
    else text
  }

  /** Digits, where two digits may have one underscore between them. */
  function ParseDigits(text: string): Option<nat> {
    if text == "" || !IsDigit(text[|text| - 1]) then None
    else
      var n := |text| - 1;
      var digit: nat := (text[n] - '0') as nat;
      if n == 0 then Some(digit)
      else
        match ParseDigits(if text[n - 1] == '_' then text[..n - 1] else text[..n])
        case None => None
        case Some(value) => Some(10 * value + digit)
  }

  /** `int(text)`; None stands for the ValueError. */
  function ParseInt(text: string): Option<int> {
    var t := Strip(text);
    if t == "" then None
    else if t[0] == '-' || t[0] == '+' then
      match ParseDigits(t[1..])
      case None => None
      case Some(value) => var v: int := value; Some(if t[0] == '-' then -v else v)
    else
      match ParseDigits(t)
      case None => None
      case Some(value) => Some(value)
  }

  lemma {:induction false} ParsePrintedDigits(n: nat)
    ensures ParseDigits(NatToString(n)) == Some(n)
  {
    if n >= 10 {
      ParsePrintedDigits(n / 10);
      var text := NatToString(n);
      assert text[..|text| - 1] == NatToString(n / 10);
      assert IsDigit(text[|text| - 2]);
    }
  }

  /** A printed number is read back. */
  lemma ParsePrinted(n: nat)
    ensures ParseInt(NatToString(n)) == Some(n)
  {
    ParsePrintedDigits(n);
    var text := NatToString(n);
    assert IsDigit(text[0]) && IsDigit(text[|text| - 1]);
  }

  /** A sign in front of it makes the number negative or leaves it. */
  lemma ParseSigned(n: nat)
    ensures ParseInt("-" + NatToString(n)).Some? && ParseInt("-" + NatToString(n)).value + n == 0
    ensures ParseInt("+" + NatToString(n)) == Some(n)
  {
    ParsePrintedDigits(n);
    var text := NatToString(n);
    assert IsDigit(text[|text| - 1]);
    assert ("-" + text)[1..] == text && ("+" + text)[1..] == text;
  }

  lemma {:induction false} StripEnd(text: string, c: char)
    requires IsBlank(c)
    ensures Strip(text + [c]) == Strip(text)
  {
    if text != "" && IsBlank(text[0]) {
      StripEnd(text[1..], c);
      assert (text + [c])[1..] == text[1..] + [c];
    } else {
      assert (text + [c])[..|text|] == text;
    }
  }

  /** Blanks around a number do not matter. */
  lemma ParseBlanks(text: string, c: char)
    requires IsBlank(c)
    ensures ParseInt([c] + text) == ParseInt(text) == ParseInt(text + [c])
  {
    StripEnd(text, c);
    assert ([c] + text)[1..] == text;
  }
}
