/** A directory listing as both scripts see it: `os.listdir` order, with
    `os.path.isfile` answered per entry. */
module Listing {
  import opened Strings

  datatype Entry = Entry(name: string, isFile: bool)

  /** Whether an entry passes the scripts' `isfile(path) and path.endswith(suffix)` test.
      Testing the joined path or the bare name gives the same answer for the
      suffixes used here, since they start with '.' and a listed name holds no '/'. */
  predicate Wanted(e: Entry, suffix: string)
  {
    e.isFile && EndsWith(e.name, suffix)
  }

  /** The names of the listed files ending in `suffix`, in listing order. */
  function FilesWithSuffix(listing: seq<Entry>, suffix: string): (names: seq<string>)
    ensures |names| <= |listing|
    ensures forall i :: 0 <= i < |listing| && Wanted(listing[i], suffix) ==> listing[i].name in names
    ensures forall n :: n in names ==> Entry(n, true) in listing && EndsWith(n, suffix)
    decreases |listing|
  {
    if |listing| == 0 then []
    else
      var rest := FilesWithSuffix(listing[1..], suffix);
      assert forall i :: 1 <= i < |listing| ==> listing[i] == listing[1..][i - 1];
      if Wanted(listing[0], suffix) then [listing[0].name] + rest else rest
  }

  /** The filter distributes over concatenation of listings: names keep their
      relative order and nothing is reordered across the two parts. */
  lemma {:induction false} FilesWithSuffixAppend(a: seq<Entry>, b: seq<Entry>, suffix: string)
    ensures FilesWithSuffix(a + b, suffix) == FilesWithSuffix(a, suffix) + FilesWithSuffix(b, suffix)
    decreases |a|
  {
    if |a| == 0 {
      assert a + b == b;
    } else {
      assert (a + b)[0] == a[0];
      assert (a + b)[1..] == a[1..] + b;
      FilesWithSuffixAppend(a[1..], b, suffix);
    }
  }

  /** A one-entry listing yields its name exactly when the entry is a wanted file. */
  lemma FilesWithSuffixSingle(e: Entry, suffix: string)
    ensures FilesWithSuffix([e], suffix) == if Wanted(e, suffix) then [e.name] else []
  {
    assert [e][1..] == [];
  }
}
