/** Strings in the order of std::string, and std::set<string> as the strictly sorted list
    of its elements. */
module StringSets {
  predicate LexLess(a: string, b: string) {
    b != "" && (a == "" || a[0] < b[0] || (a[0] == b[0] && LexLess(a[1..], b[1..])))
  }

  lemma {:induction false} LexAsymmetric(a: string, b: string)
    requires LexLess(a, b)
    ensures !LexLess(b, a)
  {
    if a != "" && a[0] == b[0] { LexAsymmetric(a[1..], b[1..]); }
  }

  lemma {:induction false} LexAfterPrefix(p: string, a: string, b: string)
    requires LexLess(a, b)
    ensures LexLess(p + a, p + b)
  {
    if p == "" {
      assert p + a == a && p + b == b;
    } else {
      LexAfterPrefix(p[1..], a, b);
      assert (p + a)[1..] == p[1..] + a && (p + b)[1..] == p[1..] + b;
    }
  }

  lemma {:induction false} LexTotal(a: string, b: string)
    ensures a == b || LexLess(a, b) || LexLess(b, a)
  {
    if a != "" && b != "" && a[0] == b[0] {
      LexTotal(a[1..], b[1..]);
      assert a == [a[0]] + a[1..] && b == [b[0]] + b[1..];
    }
  }

  lemma {:induction false} LexTransitive(a: string, b: string, c: string)
    requires LexLess(a, b) && LexLess(b, c)
    ensures LexLess(a, c)
  {
    if a != "" && a[0] == b[0] == c[0] { LexTransitive(a[1..], b[1..], c[1..]); }
  }

  lemma {:induction false} LexIrreflexive(a: string)
    ensures !LexLess(a, a)
  {
    if a != "" { LexIrreflexive(a[1..]); }
  }

  predicate Sorted(s: seq<string>) {
    forall i, j :: 0 <= i < j < |s| ==> LexLess(s[i], s[j])
  }

  function Elements(s: seq<string>): set<string> {
    set x | x in s
  }

  /** s is the listing of the set. */
  predicate Lists(s: seq<string>, names: set<string>) {
    Sorted(s) && Elements(s) == names
  }

  /** set.insert. */
  function Insert(s: seq<string>, x: string): (r: seq<string>) {
    if s == [] then [x]
    else if x == s[0] then s
    else if LexLess(x, s[0]) then [x] + s
    else [s[0]] + Insert(s[1..], x)
  }

  lemma {:induction false} InsertElements(s: seq<string>, x: string)
    ensures Elements(Insert(s, x)) == Elements(s) + {x}
  {
    if s != [] && x != s[0] && !LexLess(x, s[0]) {
      InsertElements(s[1..], x);
      assert Elements(s) == {s[0]} + Elements(s[1..]);
      assert Elements(Insert(s, x)) == {s[0]} + Elements(Insert(s[1..], x));
    }
  }

  lemma {:induction false} InsertSorted(s: seq<string>, x: string)
    requires Sorted(s)
    ensures Sorted(Insert(s, x))
  {
    if s == [] || x == s[0] {
    } else if LexLess(x, s[0]) {
      forall j | 0 < j < |s| ensures LexLess(x, s[j]) { LexTransitive(x, s[0], s[j]); }
    } else {
      LexTotal(x, s[0]);
      InsertSorted(s[1..], x);
      InsertElements(s[1..], x);
      var r := Insert(s[1..], x);
      forall j | 0 <= j < |r| ensures LexLess(s[0], r[j]) {
        assert r[j] in Elements(r);
      }
    }
  }

  lemma InsertLists(s: seq<string>, names: set<string>, x: string)
    requires Lists(s, names)
    ensures Lists(Insert(s, x), names + {x})
  {
    InsertElements(s, x);
    InsertSorted(s, x);
  }

  lemma SortedTail(s: seq<string>)
    requires Sorted(s) && s != []
    ensures Sorted(s[1..]) && Elements(s[1..]) == Elements(s) - {s[0]}
  {
    forall x | x in s[1..] ensures x != s[0] {
      var i :| 0 <= i < |s| - 1 && s[1..][i] == x;
      assert LexLess(s[0], s[i + 1]);
      LexIrreflexive(x);
    }
  }

  lemma FirstIsLeast(s: seq<string>, x: string)
    requires Sorted(s) && x in s && x != s[0]
    ensures LexLess(s[0], x)
  {
  }

  lemma EmptyListing(s: seq<string>)
    ensures s == [] <==> Elements(s) == {}
  {
    if s != [] { assert s[0] in Elements(s); }
  }

  /** A set has one listing, so the iteration order of std::set is determined. */
  lemma {:induction false} ListingIsUnique(a: seq<string>, b: seq<string>)
    requires Sorted(a) && Sorted(b) && Elements(a) == Elements(b)
    ensures a == b
  {
    EmptyListing(a);
    EmptyListing(b);
    if a != [] {
      assert a[0] in Elements(a);
      assert b[0] in Elements(b);
      if a[0] != b[0] {
        FirstIsLeast(a, b[0]);
        FirstIsLeast(b, a[0]);
        LexAsymmetric(a[0], b[0]);
      }
      SortedTail(a);
      SortedTail(b);
      ListingIsUnique(a[1..], b[1..]);
    }
  }

  /** ";" followed by each name and ";". */
  function Flatten(s: seq<string>): string {
    if s == [] then ";" else Flatten(s[..|s| - 1]) + s[|s| - 1] + ";"
  }

  /** flattenSet. */
  method FlattenSet(s: seq<string>) returns (text: string)
    ensures text == Flatten(s)
  {
    text := ";";
    for i := 0 to |s|
      invariant text == Flatten(s[..i])
    {
      text := text + s[i] + ";";
      assert s[..i + 1][..i] == s[..i];
    }
    assert s[..|s|] == s;
  }
}
