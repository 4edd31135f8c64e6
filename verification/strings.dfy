/** The few Python string operations the scripts rely on, over `seq<char>`. */
module Strings {

  /** Python's `s.endswith(suffix)`. */
  predicate EndsWith(s: string, suffix: string)
  {
    |suffix| <= |s| && s[|s| - |suffix|..] == suffix
  }

  /** Python's `s[:-n]` for a positive `n`: everything but the last `n`
      characters, or the empty string when `s` is shorter than that. */
  function DropLast(s: string, n: nat): (r: string)
    requires 0 < n
    ensures |s| >= n ==> |r| == |s| - n && r + s[|s| - n..] == s
    ensures |s| < n ==> r == ""
  {
    if |s| >= n then s[..|s| - n] else ""
  }

  /** Python's `s.split(sep)` for a one-character separator: one field more
      than there are separators, empty fields kept. */
  function Split(s: string, sep: char): (fields: seq<string>)
    ensures |fields| >= 1
    ensures forall i :: 0 <= i < |fields| ==> sep !in fields[i]
    decreases |s|
  {
    if |s| == 0 then [""]
    else
      var rest := Split(s[1..], sep);
      if s[0] == sep then [""] + rest
      else [[s[0]] + rest[0]] + rest[1..]
  }

  /** Python's `sep.join(fields)`. */
  function Join(fields: seq<string>, sep: char): string
    decreases |fields|
  {
    if |fields| == 0 then ""
    else if |fields| == 1 then fields[0]
    else fields[0] + [sep] + Join(fields[1..], sep)
  }

  /** Joining the fields of a split gives the string back. */
  lemma {:induction false} JoinSplit(s: string, sep: char)
    ensures Join(Split(s, sep), sep) == s
    decreases |s|
  {
    if |s| > 0 {
      var rest := Split(s[1..], sep);
      JoinSplit(s[1..], sep);
      if s[0] == sep {
        assert Split(s, sep) == [""] + rest;
        assert ([""] + rest)[1..] == rest;
        assert s == [sep] + s[1..];
      } else {
        var fields := [[s[0]] + rest[0]] + rest[1..];
        assert Split(s, sep) == fields;
        if |rest| == 1 {
          assert s == [s[0]] + s[1..];
        } else {
          assert fields[1..] == rest[1..];
          assert Join(rest, sep) == rest[0] + [sep] + Join(rest[1..], sep);
          assert s == [s[0]] + s[1..];
        }
      }
    }
  }

  /** Splitting a separator-free prefix off a string only extends its first field. */
  lemma {:induction false} SplitPrefix(a: string, rest: string, sep: char)
    requires sep !in a
    ensures Split(a + rest, sep) == [a + Split(rest, sep)[0]] + Split(rest, sep)[1..]
    decreases |a|
  {
    if |a| > 0 {
      var fields := Split(rest, sep);
      assert (a + rest)[0] == a[0];
      assert (a + rest)[1..] == a[1..] + rest;
      SplitPrefix(a[1..], rest, sep);
      var inner := Split(a[1..] + rest, sep);
      assert inner == [a[1..] + fields[0]] + fields[1..];
      assert Split(a + rest, sep) == [[a[0]] + inner[0]] + inner[1..];
      assert [a[0]] + (a[1..] + fields[0]) == a + fields[0];
      assert inner[1..] == fields[1..];
    } else {
      var fields := Split(rest, sep);
      assert a + rest == rest;
      assert a + fields[0] == fields[0];
      assert fields == [fields[0]] + fields[1..];
    }
  }

  /** Splitting a join of separator-free fields gives the fields back. */
  lemma {:induction false} SplitJoin(fields: seq<string>, sep: char)
    requires |fields| >= 1
    requires forall i :: 0 <= i < |fields| ==> sep !in fields[i]
    ensures Split(Join(fields, sep), sep) == fields
    decreases |fields|
  {
    if |fields| == 1 {
      SplitPrefix(fields[0], "", sep);
      assert fields[0] + "" == fields[0];
    } else {
      var tail := Join(fields[1..], sep);
      SplitJoin(fields[1..], sep);
      assert Join(fields, sep) == fields[0] + ([sep] + tail);
      SplitPrefix(fields[0], [sep] + tail, sep);
      assert ([sep] + tail)[1..] == tail;
      assert Split([sep] + tail, sep) == [""] + fields[1..];
      assert fields[0] + "" == fields[0];
      assert fields == [fields[0]] + fields[1..];
    }
  }
}
