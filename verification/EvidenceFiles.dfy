/**
 A directory of evidence files, written one by one and read back in the order of their names.
 No file is ever overwritten. Names start with a zero-padded number, and the point is when reading
 back returns what was written, in the order it was written.
 */
module EvidenceFiles {
  import opened Wrappers
  import opened Scalars
  import opened Sorting
  import opened Collections

  datatype File<T> = File(name: Bytes, content: T)

  /** Writes a new file, or raises when the name is taken. */
  function Write<T>(folder: seq<File<T>>, name: Bytes, content: T): Option<seq<File<T>>> {
    if exists i :: 0 <= i < |folder| && folder[i].name == name then None else Some(folder + [File(name, content)])
  }

  predicate ByName<T>(a: File<T>, b: File<T>) {
    TextLeq(a.name, b.name)
  }

  function Contents<T>(folder: seq<File<T>>): (contents: seq<T>)
    ensures |contents| == |folder|
    ensures forall i :: 0 <= i < |folder| ==> contents[i] == folder[i].content
  {
    seq(|folder|, i requires 0 <= i < |folder| => folder[i].content)
  }

  /** `sorted(directory.glob(...))`, each file loaded. */
  function ReadSorted<T>(folder: seq<File<T>>): (contents: seq<T>) {
    Contents(Sort(ByName, folder))
  }

  /** All of `contents` written in turn, each under its own name, unless a name is taken. */
  function WriteAll<T>(name: T -> Bytes, contents: seq<T>): Option<seq<File<T>>> {
    if contents == [] then Some([])
    else
      var folder := WriteAll(name, contents[..|contents| - 1]);
      if folder.None? then None else Write(folder.value, name(contents[|contents| - 1]), contents[|contents| - 1])
  }

  predicate Before(a: Bytes, b: Bytes) {
    a != b && TextLeq(a, b)
  }

  ghost predicate NamesAscend<T>(name: T -> Bytes, contents: seq<T>) {
    forall i, j :: 0 <= i < j < |contents| ==> Before(name(contents[i]), name(contents[j]))
  }

  /** Everything is written exactly when no name is used twice, and then in turn. */
  lemma {:induction false} WrittenExactly<T>(name: T -> Bytes, contents: seq<T>)
    ensures WriteAll(name, contents).Some? <==> DistinctBy(name, contents)
    ensures WriteAll(name, contents).Some? ==>
      && |WriteAll(name, contents).value| == |contents|
      && forall i :: 0 <= i < |contents| ==> WriteAll(name, contents).value[i] == File(name(contents[i]), contents[i])
  {
    if contents != [] {
      var n := |contents| - 1;
      var head := contents[..n];
      WrittenExactly(name, head);
      if DistinctBy(name, contents) {
        forall i, j | 0 <= i < j < n ensures name(head[i]) != name(head[j]) {
          assert name(contents[i]) != name(contents[j]);
        }
        forall i | 0 <= i < n ensures WriteAll(name, head).value[i].name != name(contents[n]) {
          assert name(contents[i]) != name(contents[n]);
        }
      } else if DistinctBy(name, head) {
        forall i, j | 0 <= i < j < n ensures name(contents[i]) != name(contents[j]) {
          assert name(head[i]) != name(head[j]);
        }
        var i, j :| 0 <= i < j < |contents| && name(contents[i]) == name(contents[j]);
        assert WriteAll(name, head).value[i].name == name(contents[n]);
      }
    }
  }

  /** What can be written whole can be written in part. */
  lemma PrefixIsWritten<T>(name: T -> Bytes, contents: seq<T>, all: seq<T>)
    requires contents <= all && WriteAll(name, all).Some?
    ensures WriteAll(name, contents).Some?
  {
    WrittenExactly(name, all);
    WrittenExactly(name, contents);
    forall i, j | 0 <= i < j < |contents| ensures name(contents[i]) != name(contents[j]) {
      assert name(all[i]) != name(all[j]);
    }
  }

  // Reading back

  lemma {:induction false} SortKeepsSorted<T>(le: (T, T) -> bool, xs: seq<T>)
    requires Sorted(le, xs)
    ensures Sort(le, xs) == xs
  {
    if xs != [] {
      SortKeepsSorted(le, xs[1..]);
      assert |xs| > 1 ==> le(xs[0], xs[1]);
    }
  }

  lemma AscendingNamesAreDistinct<T>(name: T -> Bytes, contents: seq<T>)
    requires NamesAscend(name, contents)
    ensures DistinctBy(name, contents)
  {
    forall i, j | 0 <= i < j < |contents| ensures name(contents[i]) != name(contents[j]) {
      assert Before(name(contents[i]), name(contents[j]));
    }
  }

  lemma AscendingNamesReadBack<T>(name: T -> Bytes, contents: seq<T>)
    requires NamesAscend(name, contents)
    ensures WriteAll(name, contents).Some? && ReadSorted(WriteAll(name, contents).value) == contents
  {
    AscendingNamesAreDistinct(name, contents);
    WrittenExactly(name, contents);
    var folder := WriteAll(name, contents).value;
    forall i, j | 0 <= i < j < |folder| ensures ByName(folder[i], folder[j]) {
      assert Before(name(contents[i]), name(contents[j]));
    }
    SortKeepsSorted(ByName, folder);
  }

  lemma ByNameIsTotalPreorder<T(!new)>()
    ensures TotalPreorder<File<T>>(ByName)
  {
    forall a: File<T>, b: File<T> ensures ByName(a, b) || ByName(b, a) {
      TextLeqTotal(a.name, b.name);
    }
    forall a: File<T>, b: File<T>, c: File<T> | ByName(a, b) && ByName(b, c) ensures ByName(a, c) {
      TextLeqTransitive(a.name, b.name, c.name);
    }
  }

  lemma ReadBackIsSorted<T(!new)>(name: T -> Bytes, contents: seq<T>, i: nat, j: nat)
    requires WriteAll(name, contents).Some? && ReadSorted(WriteAll(name, contents).value) == contents
    requires i < j < |contents|
    ensures TextLeq(name(contents[i]), name(contents[j]))
  {
    var folder := WriteAll(name, contents).value;
    var sorted := Sort(ByName, folder);
    ByNameIsTotalPreorder<T>();
    SortSorts(ByName, folder);
    SortedFileKeepsItsName(name, contents, i);
    SortedFileKeepsItsName(name, contents, j);
    assert ByName(sorted[i], sorted[j]);
  }

  lemma SortedFileKeepsItsName<T>(name: T -> Bytes, contents: seq<T>, i: nat)
    requires WriteAll(name, contents).Some? && i < |Sort(ByName, WriteAll(name, contents).value)|
    ensures var file := Sort(ByName, WriteAll(name, contents).value)[i]; file.name == name(file.content)
  {
    var folder := WriteAll(name, contents).value;
    WrittenExactly(name, contents);
    SortPermutes(ByName, folder);
    assert Sort(ByName, folder)[i] in multiset(folder);
    var k :| 0 <= k < |folder| && folder[k] == Sort(ByName, folder)[i];
  }

  /** Contents are written and read back in order exactly when their names strictly ascend. */
  lemma ReadsBackExactly<T(!new)>(name: T -> Bytes, contents: seq<T>)
    ensures WriteAll(name, contents).Some? && ReadSorted(WriteAll(name, contents).value) == contents
      <==> NamesAscend(name, contents)
  {
    if NamesAscend(name, contents) {
      AscendingNamesReadBack(name, contents);
    }
    if WriteAll(name, contents).Some? && ReadSorted(WriteAll(name, contents).value) == contents {
      WrittenExactly(name, contents);
      forall i, j | 0 <= i < j < |contents| ensures Before(name(contents[i]), name(contents[j])) {
        ReadBackIsSorted(name, contents, i, j);
        assert name(contents[i]) != name(contents[j]);
      }
    }
  }

  // Zero-padded numbers

  function Zeros(n: nat): (zeros: Bytes)
    ensures |zeros| == n && forall i :: 0 <= i < n ==> zeros[i] == 48
  {
    seq(n, i => 48)
  }

  /** `f"{n:0{width}d}"`. */
  function Padded(width: nat, n: nat): Bytes {
    Zeros(if |Decimal(n)| < width then width - |Decimal(n)| else 0) + Decimal(n)
  }

  function Pow10(width: nat): nat {
    if width == 0 then 1 else 10 * Pow10(width - 1)
  }

  /** Exactly `width` digits, for a number below `10 ** width`. */
  function Digits(width: nat, n: nat): Bytes {
    if width == 0 then [] else Digits(width - 1, n / 10) + [48 + n % 10]
  }

  lemma {:induction false} DigitsOfZero(width: nat)
    ensures Digits(width, 0) == Zeros(width)
  {
    if width > 0 {
      DigitsOfZero(width - 1);
      assert Zeros(width - 1) + [48] == Zeros(width);
    }
  }

  lemma {:induction false} PaddedDigits(width: nat, n: nat)
    requires 0 < width && n < Pow10(width)
    ensures |Decimal(n)| <= width && Padded(width, n) == Digits(width, n)
  {
    assert Pow10(1) == 10 * Pow10(0);
    if n < 10 {
      DigitsOfZero(width - 1);
      assert Decimal(n) == [48 + n];
      assert Padded(width, n) == Zeros(width - 1) + [48 + n];
    } else {
      PaddedDigits(width - 1, n / 10);
      assert Decimal(n) == Decimal(n / 10) + [48 + n % 10];
    }
  }

  lemma {:induction false} LeqAfterPrefix(p: Text, a: Text, b: Text)
    ensures TextLeq(p + a, p + b) == TextLeq(a, b)
  {
    if p == [] {
      assert p + a == a && p + b == b;
    } else {
      assert (p + a)[1..] == p[1..] + a && (p + b)[1..] == p[1..] + b;
      LeqAfterPrefix(p[1..], a, b);
    }
  }

  /** Digit strings of one width are ordered as their numbers, whatever follows them. */
  lemma {:induction false} DigitsAscend(width: nat, m: nat, n: nat, s: Bytes, t: Bytes)
    requires m < n < Pow10(width)
    ensures TextLeq(Digits(width, m) + s, Digits(width, n) + t)
    ensures !TextLeq(Digits(width, n) + t, Digits(width, m) + s)
  {
    var d, e := [48 + m % 10], [48 + n % 10];
    if m / 10 == n / 10 {
      var p := Digits(width - 1, m / 10);
      assert Digits(width, m) + s == p + (d + s);
      assert Digits(width, n) + t == p + (e + t);
      LeqAfterPrefix(p, d + s, e + t);
      LeqAfterPrefix(p, e + t, d + s);
    } else {
      DigitsAscend(width - 1, m / 10, n / 10, d + s, e + t);
      assert Digits(width, m) + s == Digits(width - 1, m / 10) + (d + s);
      assert Digits(width, n) + t == Digits(width - 1, n / 10) + (e + t);
    }
  }

  /** `f"{n:0{width}d}-{tag}.json"`. */
  function NumberedName(width: nat, n: nat, tag: Bytes): Bytes {
    Padded(width, n) + [45] + tag + [46, 106, 115, 111, 110]
  }

  lemma NumberedNamesAscend(width: nat, m: nat, n: nat, s: Bytes, t: Bytes)
    requires 0 < width && m < n < Pow10(width)
    ensures Before(NumberedName(width, m, s), NumberedName(width, n, t))
  {
    var json: Bytes := [46, 106, 115, 111, 110];
    PaddedDigits(width, m);
    PaddedDigits(width, n);
    DigitsAscend(width, m, n, [45] + s + json, [45] + t + json);
    assert NumberedName(width, m, s) == Digits(width, m) + ([45] + s + json);
    assert NumberedName(width, n, t) == Digits(width, n) + ([45] + t + json);
  }

  lemma {:induction false} ZerosCountNothing(k: nat, digits: Bytes)
    ensures DecimalValue(Zeros(k) + digits) == DecimalValue(digits)
  {
    if digits == [] {
      assert Zeros(k) + digits == Zeros(k);
      if k > 0 {
        assert Zeros(k)[..k - 1] == Zeros(k - 1) == Zeros(k - 1) + [];
        ZerosCountNothing(k - 1, []);
      }
    } else {
      assert (Zeros(k) + digits)[..k + |digits| - 1] == Zeros(k) + digits[..|digits| - 1];
      ZerosCountNothing(k, digits[..|digits| - 1]);
    }
  }

  lemma PaddedReadsBack(width: nat, n: nat)
    ensures DecimalValue(Padded(width, n)) == n
    ensures forall i :: 0 <= i < |Padded(width, n)| ==> Padded(width, n)[i] != 45
  {
    DecimalRoundTrip(n);
    ZerosCountNothing(if |Decimal(n)| < width then width - |Decimal(n)| else 0, Decimal(n));
  }

  /** Different numbers, of any size, give different names. */
  lemma NumberedNamesDiffer(width: nat, m: nat, n: nat, s: Bytes, t: Bytes)
    requires NumberedName(width, m, s) == NumberedName(width, n, t)
    ensures m == n && s == t
  {
    var p, q, x := Padded(width, m), Padded(width, n), NumberedName(width, m, s);
    PaddedReadsBack(width, m);
    PaddedReadsBack(width, n);
    assert x[|p|] == 45 && x[|q|] == 45;
    assert forall i :: 0 <= i < |p| ==> x[i] == p[i] != 45;
    assert forall i :: 0 <= i < |q| ==> x[i] == q[i] != 45;
    assert |p| == |q|;
    assert x[..|p|] == p && x[..|q|] == q;
    assert s == x[|p| + 1..|x| - 5] && t == x[|q| + 1..|x| - 5];
  }

  lemma PowersOfTen()
    ensures Pow10(4) == 10000
    ensures Pow10(20) == 100000000000000000000
  {
    assert Pow10(1) == 10 * Pow10(0);
    assert Pow10(2) == 10 * Pow10(1);
    assert Pow10(3) == 10 * Pow10(2);
    assert Pow10(4) == 10 * Pow10(3);
    assert Pow10(8) == 100000000 by {
      assert Pow10(6) == 10 * Pow10(5) == 100 * Pow10(4);
      assert Pow10(8) == 10 * Pow10(7) == 100 * Pow10(6);
    }
    assert Pow10(14) == 100000000000000 by {
      assert Pow10(10) == 10 * Pow10(9) == 100 * Pow10(8);
      assert Pow10(12) == 10 * Pow10(11) == 100 * Pow10(10);
      assert Pow10(14) == 10 * Pow10(13) == 100 * Pow10(12);
    }
    assert Pow10(16) == 10 * Pow10(15) == 100 * Pow10(14);
    assert Pow10(18) == 10 * Pow10(17) == 100 * Pow10(16);
    assert Pow10(20) == 10 * Pow10(19) == 100 * Pow10(18);
  }
}
