/** Splitting a string at a separator and joining parts with it. */
module Splitting {

  /** `c` put in front of the first part. */
  function OntoFirst(c: char, parts: seq<string>): seq<string>
    requires parts != []
  {
    [[c] + parts[0]] + parts[1..]
  }

  /** The parts of `s` between occurrences of `sep`; at least one. */
  function Split(s: string, sep: char): (parts: seq<string>)
    ensures |parts| >= 1 && forall p :: p in parts ==> |p| <= |s|
  {
    if s == [] then [[]]
    else
      var rest := Split(s[1..], sep);
      if s[0] == sep then [[]] + rest else OntoFirst(s[0], rest)
  }

  function Join(parts: seq<string>, sep: char): string {
    if parts == [] then []
    else if |parts| == 1 then parts[0]
    else parts[0] + [sep] + Join(parts[1..], sep)
  }

  lemma SplitCons(c: char, s: string, sep: char)
    ensures Split([c] + s, sep) == if c == sep then [[]] + Split(s, sep) else OntoFirst(c, Split(s, sep))
  {
    assert ([c] + s)[1..] == s;
  }

  lemma {:induction false} SplitConcat(s: string, a: string, b: string, sep: char)
    requires s == a + [sep] + b
    ensures Split(s, sep) == Split(a, sep) + Split(b, sep)
    decreases |a|
  {
    if a == "" {
      assert s == [sep] + b;
      SplitCons(sep, b, sep);
    } else {
      var c, rest := a[0], a[1..] + [sep] + b;
      assert a == [c] + a[1..] && s == [c] + rest;
      SplitConcat(rest, a[1..], b, sep);
      SplitCons(c, rest, sep);
      SplitCons(c, a[1..], sep);
      ConcatAfter(c, Split(a[1..], sep), Split(b, sep));
    }
  }

  lemma ConcatAfter(c: char, r: seq<string>, t: seq<string>)
    requires r != []
    ensures [[]] + (r + t) == [[]] + r + t
    ensures OntoFirst(c, r + t) == OntoFirst(c, r) + t
  {
    assert (r + t)[0] == r[0] && (r + t)[1..] == r[1..] + t;
  }

  lemma {:induction false} SplitWhole(s: string, sep: char)
    ensures Split(s, sep) == [s] <==> sep !in s
    ensures |Split(s, sep)| == 1 <==> sep !in s
  {
    if s != "" {
      SplitWhole(s[1..], sep);
      assert s == [s[0]] + s[1..];
    }
  }

  lemma JoinFirst(c: char, parts: seq<string>, sep: char)
    requires parts != []
    ensures Join([[]] + parts, sep) == [sep] + Join(parts, sep)
    ensures Join(OntoFirst(c, parts), sep) == [c] + Join(parts, sep)
  {
    assert ([[]] + parts)[1..] == parts;
    assert OntoFirst(c, parts)[1..] == parts[1..];
  }

  /** Joining undoes splitting. */
  lemma {:induction false} JoinSplit(s: string, sep: char)
    ensures Join(Split(s, sep), sep) == s
  {
    if s != "" {
      JoinSplit(s[1..], sep);
      JoinFirst(s[0], Split(s[1..], sep), sep);
    }
  }

  /** Splitting undoes joining iff no part holds the separator; otherwise it yields more parts. */
  lemma {:induction false} SplitJoin(parts: seq<string>, sep: char)
    requires parts != []
    ensures |Split(Join(parts, sep), sep)| >= |parts|
    ensures |Split(Join(parts, sep), sep)| == |parts| <==> forall p :: p in parts ==> sep !in p
    ensures (forall p :: p in parts ==> sep !in p) ==> Split(Join(parts, sep), sep) == parts
  {
    SplitWhole(parts[0], sep);
    assert parts == [parts[0]] + parts[1..];
    if |parts| > 1 {
      SplitJoin(parts[1..], sep);
      SplitConcat(Join(parts, sep), parts[0], Join(parts[1..], sep), sep);
    }
  }
}
