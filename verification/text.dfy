/**
 * The few JavaScript string operations task-tracker.js relies on, written out over `seq<char>`:
 * `startsWith`, `split`, `join(' ')`, `toLowerCase` (ASCII letters only) and a decimal `parseInt`.
 */
module Text {
  import opened Optional

  /** `s.startsWith(prefix)`. */
  predicate StartsWith(s: string, prefix: string) {
    |prefix| <= |s| && s[..|prefix|] == prefix
  }

  /** The longest prefix of `s` that does not contain `c`. */
  function TakeUntil(s: string, c: char): (r: string)
    ensures |r| <= |s| && r == s[..|r|]
    ensures c !in r
    ensures |r| < |s| ==> s[|r|] == c
  {
    if s == [] || s[0] == c then [] else [s[0]] + TakeUntil(s[1..], c)
  }

  /** `s.split(c)`: the pieces of `s` between occurrences of `c`, in order. */
  function Split(s: string, c: char): (r: seq<string>)
    ensures |r| >= 1
    ensures c in s ==> |r| >= 2
    decreases |s|
  {
    var w := TakeUntil(s, c);
    if |w| == |s| then [s] else [w] + Split(s[|w| + 1..], c)
  }

  /** `words.join(' ')`. */
  function Join(words: seq<string>): string {
    if words == [] then ""
    else if |words| == 1 then words[0]
    else words[0] + " " + Join(words[1..])
  }

  /** The character `toLowerCase` gives for `c`, for ASCII letters. */
  function LowerChar(c: char): char {
    if 'A' <= c <= 'Z' then (c as int - 'A' as int + 'a' as int) as char else c
  }

  /** `s.toLowerCase()`, restricted to ASCII letters. */
  function ToLower(s: string): (r: string)
    ensures |r| == |s|
    ensures forall i :: 0 <= i < |s| ==> r[i] == LowerChar(s[i])
    ensures forall i :: 0 <= i < |r| ==> !('A' <= r[i] <= 'Z')
  {
    if s == [] then [] else [LowerChar(s[0])] + ToLower(s[1..])
  }

  predicate IsDigit(c: char) {
    '0' <= c <= '9'
  }

  predicate AllDigits(s: string) {
    forall i :: 0 <= i < |s| ==> IsDigit(s[i])
  }

  /** The longest prefix of `s` made of decimal digits. */
  function DigitRun(s: string): (r: string)
    ensures |r| <= |s| && r == s[..|r|]
    ensures AllDigits(r)
    ensures |r| < |s| ==> !IsDigit(s[|r|])
  {
    if s == [] || !IsDigit(s[0]) then [] else [s[0]] + DigitRun(s[1..])
  }

  /** The number a string of decimal digits denotes. */
  function DigitsValue(ds: string): nat
    requires AllDigits(ds)
  {
    if ds == [] then 0
    else DigitsValue(ds[..|ds| - 1]) * 10 + (ds[|ds| - 1] as int - '0' as int)
  }

  /** The value of the longest run of digits at the start of `s`, or NaN if there is none. */
  function ParseDigits(s: string): (r: Option<nat>)
    ensures r.Some? <==> |s| > 0 && IsDigit(s[0])
  {
    var ds := DigitRun(s);
    if ds == [] then None else Some(DigitsValue(ds))
  }

  /**
   * `parseInt(s)` for decimal input: an optional sign, then the longest run of digits; anything after
   * the run is ignored, and no digits at all gives NaN (`None`).
   */
  function ParseInt(s: string): (r: Option<int>)
    ensures r.Some? <==>
      (|s| > 0 && IsDigit(s[0])) || (|s| > 1 && (s[0] == '-' || s[0] == '+') && IsDigit(s[1]))
  {
    if |s| > 0 && s[0] == '-' then
      match ParseDigits(s[1..])
      case None => None
      case Some(v) => Some(-(v as int))
    else if |s| > 0 && s[0] == '+' then
      match ParseDigits(s[1..])
      case None => None
      case Some(v) => Some(v)
    else
      match ParseDigits(s)
      case None => None
      case Some(v) => Some(v)
  }

  /** The decimal digit for `d`. */
  function DigitChar(d: nat): (c: char)
    requires d < 10
    ensures IsDigit(c) && c as int - '0' as int == d
  {
    ('0' as int + d) as char
  }

  /** The decimal rendering of a natural number, as `String(n)` gives it. */
  function ShowNat(n: nat): (r: string)
    ensures |r| >= 1 && AllDigits(r)
  {
    if n < 10 then [DigitChar(n)] else ShowNat(n / 10) + [DigitChar(n % 10)]
  }

  /** The decimal rendering of an integer, as `String(n)` gives it. */
  function ShowInt(n: int): (r: string)
    ensures |r| >= 1
  {
    if n < 0 then "-" + ShowNat(-n) else ShowNat(n)
  }

  lemma {:induction false} TakeUntilPrefix(w: string, c: char, rest: string)
    requires c !in w
    ensures TakeUntil(w + [c] + rest, c) == w
  {
    if w != [] {
      assert (w + [c] + rest)[1..] == w[1..] + [c] + rest;
      TakeUntilPrefix(w[1..], c, rest);
    }
  }

  lemma {:induction false} TakeUntilAll(w: string, c: char)
    requires c !in w
    ensures TakeUntil(w, c) == w
  {
    if w != [] {
      TakeUntilAll(w[1..], c);
    }
  }

  /** Splitting a joined list of space-free words gives the words back. */
  lemma {:induction false} SplitJoin(words: seq<string>)
    requires words != []
    requires forall i :: 0 <= i < |words| ==> ' ' !in words[i]
    ensures Split(Join(words), ' ') == words
  {
    if |words| == 1 {
      TakeUntilAll(words[0], ' ');
    } else {
      var rest := Join(words[1..]);
      var s := words[0] + " " + rest;
      assert s == words[0] + [' '] + rest;
      TakeUntilPrefix(words[0], ' ', rest);
      assert s[|words[0]| + 1..] == rest;
      SplitJoin(words[1..]);
    }
  }

  /** A `join(' ')` is empty exactly when there are no words or a single empty one. */
  lemma JoinEmpty(words: seq<string>)
    ensures Join(words) == "" <==> words == [] || words == [""]
  {
    if |words| >= 2 {
      assert |Join(words)| >= 1;
    }
  }

  /** The text after `name=` up to the next `=`: what `split('=')[1]` gives for a flag token. */
  lemma {:induction false} SplitAfterPrefix(name: string, rest: string)
    requires '=' !in name
    ensures |Split(name + "=" + rest, '=')| >= 2
    ensures Split(name + "=" + rest, '=')[1] == TakeUntil(rest, '=')
  {
    var s := name + "=" + rest;
    assert s == name + ['='] + rest;
    TakeUntilPrefix(name, '=', rest);
    assert s[|name| + 1..] == rest;
    var tail := Split(rest, '=');
    assert Split(s, '=') == [name] + tail;
    var w := TakeUntil(rest, '=');
    assert tail[0] == w;
  }

  lemma {:induction false} DigitRunOfDigits(ds: string, tail: string)
    requires AllDigits(ds)
    requires tail == [] || !IsDigit(tail[0])
    ensures DigitRun(ds + tail) == ds
  {
    if ds != [] {
      assert (ds + tail)[1..] == ds[1..] + tail;
      DigitRunOfDigits(ds[1..], tail);
    }
  }

  lemma {:induction false} ShowNatValue(n: nat)
    ensures DigitsValue(ShowNat(n)) == n
  {
    if n >= 10 {
      var s := ShowNat(n);
      assert s[..|s| - 1] == ShowNat(n / 10);
      ShowNatValue(n / 10);
    }
  }

  /** A run of digits followed by a non-digit (or nothing) is read as the run's value. */
  lemma ParseDigitsOfDigits(ds: string, tail: string)
    requires ds != [] && AllDigits(ds)
    requires tail == [] || !IsDigit(tail[0])
    ensures ParseDigits(ds + tail) == Some(DigitsValue(ds))
  {
    DigitRunOfDigits(ds, tail);
  }

  lemma ParseIntDigits(ds: string, tail: string)
    requires ds != [] && AllDigits(ds)
    requires tail == [] || !IsDigit(tail[0])
    ensures ParseInt(ds + tail) == Some(DigitsValue(ds))
  {
    ParseDigitsOfDigits(ds, tail);
  }

  /** A minus sign in front of a run of digits negates its value. */
  lemma ParseIntMinus(s: string, v: nat)
    requires ParseDigits(s) == Some(v)
    ensures ParseInt("-" + s) == Some(-(v as int))
  {
    var t := "-" + s;
    assert t[0] == '-' && t[1..] == s;
  }

  lemma ParseIntShowNat(n: nat, tail: string)
    requires tail == [] || !IsDigit(tail[0])
    ensures ParseInt(ShowNat(n) + tail) == Some(n)
  {
    ShowNatValue(n);
    ParseIntDigits(ShowNat(n), tail);
  }

  lemma ParseIntShowNegative(n: int, tail: string)
    requires n < 0
    requires tail == [] || !IsDigit(tail[0])
    ensures ParseInt(ShowInt(n) + tail) == Some(n)
  {
    var m: nat := -n;
    var digits := ShowNat(m);
    ShowNatValue(m);
    ShowIntNegative(n, tail);
    ParseDigitsOfDigits(digits, tail);
    ParseIntMinus(digits + tail, m);
  }

  lemma ShowIntNegative(n: int, tail: string)
    requires n < 0
    ensures ShowInt(n) + tail == "-" + (ShowNat(-n) + tail)
  {
  }

  /**
   * `parseInt` reads back what `String(n)` wrote, also when text that does not start with a digit
   * follows (`parseInt("42abc")` is 42).
   */
  lemma ParseIntShowInt(n: int, tail: string)
    requires tail == [] || !IsDigit(tail[0])
    ensures ParseInt(ShowInt(n) + tail) == Some(n)
  {
    if n < 0 {
      ParseIntShowNegative(n, tail);
    } else {
      ParseIntShowNat(n, tail);
    }
  }
}
