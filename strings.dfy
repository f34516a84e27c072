/** Character counting, joining and splitting of strings, as the query builder
    uses them: `Array.prototype.join` glues clause lists together, and
    `String.prototype.split` with a one-character separator is the inverse that
    the lemmas use to read a rendered list back. */
module Strings {

  /** Number of occurrences of the character `c` in `s`. */
  function Occurrences(s: string, c: char): nat
  {
    if s == [] then 0 else (if s[0] == c then 1 else 0) + Occurrences(s[1..], c)
  }

  lemma {:induction false} OccurrencesAppend(a: string, b: string, c: char)
    ensures Occurrences(a + b, c) == Occurrences(a, c) + Occurrences(b, c)
  {
    if a == [] {
      assert a + b == b;
    } else {
      assert (a + b)[0] == a[0];
      assert (a + b)[1..] == a[1..] + b;
      OccurrencesAppend(a[1..], b, c);
    }
  }

  lemma {:induction false} OccurrencesAbsent(s: string, c: char)
    ensures c !in s <==> Occurrences(s, c) == 0
  {
    if s != [] {
      assert s == [s[0]] + s[1..];
      OccurrencesAbsent(s[1..], c);
    }
  }

  /** A prefix without `c` adds no occurrence of `c`. */
  lemma FreePrefix(a: string, b: string, c: char)
    requires c !in a
    ensures Occurrences(a + b, c) == Occurrences(b, c)
  {
    OccurrencesAppend(a, b, c);
    OccurrencesAbsent(a, c);
  }

  /** A suffix without `c` adds no occurrence of `c`. */
  lemma FreeSuffix(a: string, b: string, c: char)
    requires c !in b
    ensures Occurrences(a + b, c) == Occurrences(a, c)
  {
    OccurrencesAppend(a, b, c);
    OccurrencesAbsent(b, c);
  }

  /** `parts.join(sep)`: the parts in order, with `sep` between neighbours. */
  function Join(parts: seq<string>, sep: string): string
  {
    if |parts| == 0 then ""
    else if |parts| == 1 then parts[0]
    else parts[0] + sep + Join(parts[1..], sep)
  }

  /** Occurrences of `c` summed over all `parts`. */
  function TotalOccurrences(parts: seq<string>, c: char): nat
  {
    if parts == [] then 0 else Occurrences(parts[0], c) + TotalOccurrences(parts[1..], c)
  }

  lemma {:induction false} TotalOccurrencesAppend(a: seq<string>, b: seq<string>, c: char)
    ensures TotalOccurrences(a + b, c) == TotalOccurrences(a, c) + TotalOccurrences(b, c)
  {
    if a == [] {
      assert a + b == b;
    } else {
      assert (a + b)[0] == a[0];
      assert (a + b)[1..] == a[1..] + b;
      TotalOccurrencesAppend(a[1..], b, c);
    }
  }

  /** A joined list holds the characters of its parts plus one separator per gap. */
  lemma {:induction false} JoinOccurrences(parts: seq<string>, sep: string, c: char)
    ensures Occurrences(Join(parts, sep), c)
         == TotalOccurrences(parts, c) + (if parts == [] then 0 else (|parts| - 1) * Occurrences(sep, c))
  {
    if |parts| == 1 {
      assert parts[1..] == [];
    } else if |parts| > 1 {
      var rest := parts[1..];
      OccurrencesAppend(parts[0] + sep, Join(rest, sep), c);
      OccurrencesAppend(parts[0], sep, c);
      JoinOccurrences(rest, sep, c);
      var k, n := Occurrences(sep, c), |rest|;
      assert (n + 1 - 1) * k == (n - 1) * k + k;
    }
  }

  /** With a separator free of `c`, a joined list holds exactly the `c` of its parts. */
  lemma JoinFreeSeparator(parts: seq<string>, sep: string, c: char)
    requires c !in sep
    ensures Occurrences(Join(parts, sep), c) == TotalOccurrences(parts, c)
  {
    JoinOccurrences(parts, sep, c);
    OccurrencesAbsent(sep, c);
  }

  /** `s.split(sep)` for a one-character separator: never empty, and the
      empty string splits into one empty part. */
  function Split(s: string, sep: char): (parts: seq<string>)
    ensures |parts| > 0
  {
    if s == [] then [""]
    else
      var rest := Split(s[1..], sep);
      if s[0] == sep then [""] + rest else [[s[0]] + rest[0]] + rest[1..]
  }

  /** A separator-free prefix sticks to the first part of what follows it. */
  lemma {:induction false} SplitPrefix(a: string, t: string, sep: char)
    requires sep !in a
    ensures Split(a + t, sep) == [a + Split(t, sep)[0]] + Split(t, sep)[1..]
  {
    var st := Split(t, sep);
    if a == [] {
      assert a + t == t;
      assert a + st[0] == st[0];
      assert [st[0]] + st[1..] == st;
    } else {
      assert (a + t)[0] == a[0];
      assert (a + t)[1..] == a[1..] + t;
      SplitPrefix(a[1..], t, sep);
      assert [a[0]] + (a[1..] + st[0]) == a + st[0];
    }
  }

  /** Splitting undoes joining, as long as no part contains the separator
      and the list is not empty (`[].join(",")` and `[""].join(",")` coincide). */
  lemma {:induction false} SplitJoin(parts: seq<string>, sep: char)
    requires |parts| > 0
    requires forall i :: 0 <= i < |parts| ==> sep !in parts[i]
    ensures Split(Join(parts, [sep]), sep) == parts
  {
    if |parts| == 1 {
      SplitPrefix(parts[0], "", sep);
      assert parts[0] + "" == parts[0];
      assert Split("", sep) == [""];
      assert Join(parts, [sep]) == parts[0];
      assert parts == [parts[0]];
    } else {
      var rest := parts[1..];
      var joined := Join(rest, [sep]);
      SplitJoin(rest, sep);
      assert Join(parts, [sep]) == parts[0] + ([sep] + joined);
      SplitPrefix(parts[0], [sep] + joined, sep);
      assert ([sep] + joined)[1..] == joined;
      var st := Split([sep] + joined, sep);
      assert st == [""] + rest;
      assert st[1..] == rest && parts[0] + st[0] == parts[0];
      assert parts == [parts[0]] + rest;
    }
  }
}
