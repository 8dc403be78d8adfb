/** Strings as the programs exchange them: decimal numbers, and getline with a
    delimiter over a string stream. */
module Text {
  datatype Option<+T> = None | Some(value: T)

  // ---- Decimal numbers ------------------------------------------------------

  function Digit(d: nat): (c: char)
    requires d < 10
    ensures '0' <= c <= '9'
  {
    '0' + d as char
  }

  predicate IsDigit(c: char) {
    '0' <= c <= '9'
  }

  /** The decimal text of n. */
  function Decimal(n: nat): (s: string)
    ensures s != "" && forall i :: 0 <= i < |s| ==> IsDigit(s[i])
  {
    if n < 10 then [Digit(n)] else Decimal(n / 10) + [Digit(n % 10)]
  }

  /** The number a run of digits stands for. */
  function Number(s: string): nat
    requires forall i :: 0 <= i < |s| ==> IsDigit(s[i])
  {
    if s == "" then 0
    else
      assert IsDigit(s[|s| - 1]);
      10 * Number(s[..|s| - 1]) + (s[|s| - 1] - '0') as nat
  }

  function DigitsPrefix(s: string): (n: nat)
    ensures n <= |s| && forall i :: 0 <= i < n ==> IsDigit(s[i])
    ensures n < |s| ==> !IsDigit(s[n])
  {
    if s == "" || !IsDigit(s[0]) then 0 else 1 + DigitsPrefix(s[1..])
  }

  /** stoi on text without a sign: the leading digits, or failure when there are none. */
  function Stoi(s: string): Option<nat> {
    var n := DigitsPrefix(s);
    if n == 0 then None else Some(Number(s[..n]))
  }

  lemma {:induction false} NumberOfDecimal(n: nat)
    ensures Number(Decimal(n)) == n
  {
    if n >= 10 {
      NumberOfDecimal(n / 10);
      var s := Decimal(n);
      assert s[..|s| - 1] == Decimal(n / 10);
    }
  }

  lemma {:induction false} AllDigits(s: string)
    requires forall i :: 0 <= i < |s| ==> IsDigit(s[i])
    ensures DigitsPrefix(s) == |s|
  {
    if s != "" { AllDigits(s[1..]); }
  }

  lemma StoiOfDecimal(n: nat)
    ensures Stoi(Decimal(n)) == Some(n)
  {
    AllDigits(Decimal(n));
    assert Decimal(n)[..|Decimal(n)|] == Decimal(n);
    NumberOfDecimal(n);
  }

  lemma DecimalInjective(m: nat, n: nat)
    requires Decimal(m) == Decimal(n)
    ensures m == n
  {
    NumberOfDecimal(m);
    NumberOfDecimal(n);
  }

  lemma {:induction false} LeadingDigit(n: nat)
    requires n > 0
    ensures Decimal(n)[0] > '0'
  {
    if n >= 10 { LeadingDigit(n / 10); }
  }

  // ---- getline --------------------------------------------------------------

  /** Position of the first c in s, or the length of s. */
  function Find(s: string, c: char): (n: nat)
    ensures n <= |s| && c !in s[..n] && (n < |s| ==> s[n] == c)
  {
    if s == "" || s[0] == c then 0
    else
      var n := 1 + Find(s[1..], c);
      assert s[..n] == [s[0]] + s[1..][..n - 1];
      n
  }

  /** getline: the text up to the delimiter, and the stream after it. */
  function Token(s: string, c: char): string {
    s[..Find(s, c)]
  }

  function Rest(s: string, c: char): (r: string)
    ensures s != "" ==> |r| < |s|
  {
    if Find(s, c) < |s| then s[Find(s, c) + 1..] else ""
  }

  lemma {:induction false} FindAt(a: string, c: char, b: string)
    requires c !in a
    ensures Find(a + [c] + b, c) == |a|
  {
    if a != "" {
      assert (a + [c] + b)[1..] == a[1..] + [c] + b;
      FindAt(a[1..], c, b);
    }
  }

  lemma {:induction false} FindNone(a: string, c: char)
    requires c !in a
    ensures Find(a, c) == |a|
  {
    if a != "" { FindNone(a[1..], c); }
  }

  lemma TokenAt(a: string, c: char, b: string)
    requires c !in a
    ensures Token(a + [c] + b, c) == a && Rest(a + [c] + b, c) == b
  {
    FindAt(a, c, b);
    assert (a + [c] + b)[..|a|] == a;
    assert (a + [c] + b)[|a| + 1..] == b;
  }

  lemma TokenLast(a: string, c: char)
    requires c !in a
    ensures Token(a, c) == a && Rest(a, c) == ""
  {
    FindNone(a, c);
    assert a[..|a|] == a;
  }

  /** while (getline(ss, item, c)) items.push_back(item). */
  function Split(s: string, c: char): seq<string>
    decreases |s|
  {
    if s == "" then [] else [Token(s, c)] + Split(Rest(s, c), c)
  }

  lemma SplitFirst(a: string, c: char, b: string)
    requires c !in a
    ensures Split(a + [c] + b, c) == [a] + Split(b, c)
  {
    TokenAt(a, c, b);
  }

  /** The items read so far, and the text not yet read. */
  ghost predicate Halfway(text: string, c: char, done: seq<string>, rest: string) {
    done + Split(rest, c) == Split(text, c)
  }

  lemma HalfwayNext(text: string, c: char, done: seq<string>, rest: string)
    requires Halfway(text, c, done, rest) && rest != ""
    ensures Halfway(text, c, done + [Token(rest, c)], Rest(rest, c))
  {
  }

  lemma HalfwayEnd(text: string, c: char, done: seq<string>)
    requires Halfway(text, c, done, "")
    ensures done == Split(text, c)
  {
    assert done + [] == done;
  }

  /** ss >> ws. */
  predicate IsSpace(c: char) {
    c == ' ' || c == '\t' || c == '\n'
  }

  function SkipSpaces(s: string): (t: string)
    ensures |t| <= |s|
  {
    if s != "" && IsSpace(s[0]) then SkipSpaces(s[1..]) else s
  }

  function NonSpaces(s: string): (n: nat)
    ensures n <= |s|
  {
    if s == "" || IsSpace(s[0]) then 0 else 1 + NonSpaces(s[1..])
  }

  /** ss >> word: the next word and the stream after it. */
  function Word(s: string): string {
    SkipSpaces(s)[..NonSpaces(SkipSpaces(s))]
  }

  function AfterWord(s: string): string {
    SkipSpaces(s)[NonSpaces(SkipSpaces(s))..]
  }

  predicate Solid(w: string) {
    w != "" && forall i :: 0 <= i < |w| ==> !IsSpace(w[i])
  }

  lemma {:induction false} NonSpacesAt(w: string, rest: string)
    requires (forall i :: 0 <= i < |w| ==> !IsSpace(w[i])) && (rest == "" || IsSpace(rest[0]))
    ensures NonSpaces(w + rest) == |w|
    decreases |w|
  {
    if w != "" {
      assert (w + rest)[1..] == w[1..] + rest;
      NonSpacesAt(w[1..], rest);
    } else {
      assert w + rest == rest;
    }
  }

  lemma WordAt(w: string, rest: string)
    requires Solid(w) && (rest == "" || IsSpace(rest[0]))
    ensures Word(w + rest) == w && AfterWord(w + rest) == rest
  {
    NonSpacesAt(w, rest);
    assert (w + rest)[0] == w[0];
    assert (w + rest)[..|w|] == w && (w + rest)[|w|..] == rest;
  }

  lemma WordSkip(s: string)
    ensures Word([' '] + s) == Word(s) && AfterWord([' '] + s) == AfterWord(s)
  {
    assert ([' '] + s)[1..] == s;
  }
}
