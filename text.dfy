/** `Array.prototype.join` over strings, and character counts used to state
    how many pieces a joined text is made of. */
module Text {

  /** `parts.join(sep)`: empty for no parts, otherwise starting with the first
      part and ending with the last. */
  function Join(parts: seq<string>, sep: string): (r: string)
    ensures |parts| == 0 ==> r == ""
    ensures |parts| > 0 ==> parts[0] <= r
  {
    if |parts| == 0 then ""
    else if |parts| == 1 then parts[0]
    else parts[0] + sep + Join(parts[1..], sep)
  }

  /** `s.endsWith(t)` */
  predicate EndsWith(s: string, t: string)
  {
    |t| <= |s| && s[|s| - |t|..] == t
  }

  /** Text ends with whatever was appended last. */
  lemma EndsWithConcat(a: string, b: string)
    ensures EndsWith(a + b, b)
  {
    assert (a + b)[|a|..] == b;
  }

  /** The joined text ends with the last part. */
  lemma {:induction false} JoinEndsWithLast(parts: seq<string>, sep: string, last: string)
    requires |parts| > 0 && parts[|parts| - 1] == last
    ensures EndsWith(Join(parts, sep), last)
    decreases |parts|
  {
    if |parts| > 1 {
      JoinEndsWithLast(parts[1..], sep, last);
      var rest := Join(parts[1..], sep);
      assert Join(parts, sep) == (parts[0] + sep) + rest;
      assert (parts[0] + sep + rest)[|parts[0] + sep + rest| - |last|..] == rest[|rest| - |last|..];
    }
  }

  /** Joining one more part appends the separator and that part: the parts
      appear in the joined text in their order. */
  lemma {:induction false} JoinSnoc(parts: seq<string>, last: string, sep: string)
    requires |parts| > 0
    ensures Join(parts + [last], sep) == Join(parts, sep) + sep + last
    decreases |parts|
  {
    var all := parts + [last];
    if |parts| == 1 {
      assert all[1..] == [last];
    } else {
      assert all[1..] == parts[1..] + [last];
      JoinSnoc(parts[1..], last, sep);
    }
  }

  /** Number of occurrences of `c` in `s`. */
  function Count(s: string, c: char): nat
  {
    if |s| == 0 then 0
    else (if s[0] == c then 1 else 0) + Count(s[1..], c)
  }

  lemma {:induction false} CountConcat(a: string, b: string, c: char)
    ensures Count(a + b, c) == Count(a, c) + Count(b, c)
    decreases |a|
  {
    if |a| > 0 {
      assert (a + b)[1..] == a[1..] + b;
      CountConcat(a[1..], b, c);
    } else {
      assert a + b == b;
    }
  }

  /** When every part holds `k` copies of `c`, the joined text holds `k` per
      part plus those of the `|parts| - 1` separators. */
  lemma {:induction false} JoinCount(parts: seq<string>, sep: string, c: char, k: nat)
    requires |parts| > 0
    requires forall i :: 0 <= i < |parts| ==> Count(parts[i], c) == k
    ensures Count(Join(parts, sep), c) == |parts| * k + (|parts| - 1) * Count(sep, c)
    decreases |parts|
  {
    if |parts| > 1 {
      var n := |parts|;
      var cs := Count(sep, c);
      var rest := Join(parts[1..], sep);
      assert Count(rest, c) == (n - 1) * k + (n - 2) * cs by {
        JoinCount(parts[1..], sep, c, k);
      }
      assert Count(Join(parts, sep), c) == k + cs + Count(rest, c) by {
        assert Join(parts, sep) == parts[0] + sep + rest;
        CountConcat(parts[0] + sep, rest, c);
        CountConcat(parts[0], sep, c);
      }
      CountStep(n, k, cs, Count(rest, c), Count(Join(parts, sep), c));
    }
  }

  lemma CountStep(n: int, k: int, cs: int, rest: int, total: int)
    requires rest == (n - 1) * k + (n - 2) * cs
    requires total == k + cs + rest
    ensures total == n * k + (n - 1) * cs
  {
    assert (n - 1) * k + k == n * k;
    assert (n - 2) * cs + cs == (n - 1) * cs;
  }

}
