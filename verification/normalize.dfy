/** The field normaliser `clean_data`, which both spiders define identically
    (anime.py:16-29 and detail_data.py:23-33). */
module Normalize {

  /** A raw extraction result: nothing (`None`), one string, or a list of strings. */
  datatype Raw = Absent | Str(s: string) | Lst(items: seq<string>)

  /** The characters Python's `str.strip()` removes when called without
      arguments: those for which `str.isspace()` holds. */
  predicate IsSpace(c: char)
  {
    var n := c as int;
    || (0x09 <= n <= 0x0D)
    || (0x1C <= n <= 0x20)
    || n == 0x85 || n == 0xA0 || n == 0x1680
    || (0x2000 <= n <= 0x200A)
    || n == 0x2028 || n == 0x2029 || n == 0x202F || n == 0x205F || n == 0x3000
  }

  predicate AllSpace(s: string)
  {
    forall k :: 0 <= k < |s| ==> IsSpace(s[k])
  }

  /** A string with no whitespace at either end. */
  predicate Trimmed(s: string)
  {
    s == [] || (!IsSpace(s[0]) && !IsSpace(s[|s| - 1]))
  }

  /** Length of the whitespace run at the front of `s`. */
  function LeadingSpaces(s: string): (n: nat)
    ensures n <= |s|
    ensures AllSpace(s[..n])
    ensures n < |s| ==> !IsSpace(s[n])
  {
    if |s| == 0 || !IsSpace(s[0]) then 0
    else
      var n := 1 + LeadingSpaces(s[1..]);
      assert s[..n] == [s[0]] + s[1..][..n - 1];
      n
  }

  /** Index at which the whitespace run at the back of `s` begins. */
  function TrailingStart(s: string): (m: nat)
    ensures m <= |s|
    ensures AllSpace(s[m..])
    ensures 0 < m ==> !IsSpace(s[m - 1])
  {
    if |s| == 0 || !IsSpace(s[|s| - 1]) then |s|
    else
      var front := s[..|s| - 1];
      var m := TrailingStart(front);
      AllSpaceSnoc(front[m..], s[|s| - 1]);
      assert s[m..] == front[m..] + [s[|s| - 1]];
      assert 0 < m ==> s[m - 1] == front[m - 1];
      m
  }

  lemma AllSpaceSnoc(a: string, c: char)
    requires AllSpace(a) && IsSpace(c)
    ensures AllSpace(a + [c])
  {
    assert forall k :: 0 <= k < |a| ==> (a + [c])[k] == a[k];
  }

  /** `s` with leading and trailing whitespace removed: `str.strip()`. */
  function Strip(s: string): (t: string)
    ensures |t| <= |s|
    ensures Trimmed(t)
  {
    var i := LeadingSpaces(s);
    s[i..i + TrailingStart(s[i..])]
  }

  /** `Strip(s)` is the part of `s` between a leading and a trailing run of
      whitespace; it is empty exactly when `s` is all whitespace. */
  lemma StripRemovesOnlyOuterSpace(s: string)
    ensures exists i, j :: 0 <= i <= j <= |s| && s[..i] + Strip(s) + s[j..] == s && AllSpace(s[..i]) && AllSpace(s[j..])
    ensures Strip(s) == [] <==> AllSpace(s)
  {
    var i, j := StripBounds(s);
    assert s[..i] + Strip(s) + s[j..] == s;
    if Strip(s) == [] {
      assert s == s[..i] + s[j..];
      AllSpaceAppend(s[..i], s[j..]);
    }
    if i < |s| {
      assert !IsSpace(s[i]);
      assert !AllSpace(s);
    }
  }

  /** Where `Strip` cuts `s`. */
  lemma StripBounds(s: string) returns (i: nat, j: nat)
    ensures i <= j <= |s| && Strip(s) == s[i..j]
    ensures AllSpace(s[..i]) && AllSpace(s[j..])
    ensures i < |s| ==> !IsSpace(s[i])
    ensures i == |s| ==> j == i
  {
    i := LeadingSpaces(s);
    var rest := s[i..];
    var m := TrailingStart(rest);
    j := i + m;
    assert rest[m..] == s[j..];
  }

  lemma AllSpaceAppend(a: string, b: string)
    requires AllSpace(a) && AllSpace(b)
    ensures AllSpace(a + b)
  {
    forall k | 0 <= k < |a + b|
      ensures IsSpace((a + b)[k])
    {
      if k < |a| {
        assert (a + b)[k] == a[k];
      } else {
        assert (a + b)[k] == b[k - |a|];
      }
    }
  }

  /** Stripping a string twice is the same as stripping it once. */
  lemma StripIdempotent(s: string)
    ensures Strip(Strip(s)) == Strip(s)
  {
    TrimmedIsFixed(Strip(s));
  }

  /** The strings `str.strip()` leaves alone are exactly the trimmed ones. */
  lemma TrimmedIsFixed(s: string)
    ensures Strip(s) == s <==> Trimmed(s)
  {
    if Trimmed(s) && s != [] {
      assert LeadingSpaces(s) == 0;
      assert TrailingStart(s) == |s|;
    }
  }

  /** The list branch: `[item.strip() for item in data if item.strip()]`. */
  function CleanList(xs: seq<string>): (ys: seq<string>)
    ensures |ys| <= |xs|
  {
    if xs == [] then []
    else
      (if Blank(xs[0]) then [] else [Strip(xs[0])]) + CleanList(xs[1..])
  }

  /** Every entry the list branch returns is non-empty and trimmed. */
  lemma {:induction false} CleanListEntriesAreTrimmed(xs: seq<string>)
    ensures forall k :: 0 <= k < |CleanList(xs)| ==> CleanList(xs)[k] != [] && Trimmed(CleanList(xs)[k])
  {
    if xs != [] {
      var head := if Blank(xs[0]) then [] else [Strip(xs[0])];
      var ys := CleanList(xs);
      CleanListEntriesAreTrimmed(xs[1..]);
      assert ys == head + CleanList(xs[1..]);
      forall k | 0 <= k < |ys|
        ensures ys[k] != [] && Trimmed(ys[k])
      {
        if k >= |head| {
          assert ys[k] == CleanList(xs[1..])[k - |head|];
        }
      }
    }
  }

  /** Cleaning distributes over concatenation: entries are handled one at a
      time and kept in their original relative order. */
  lemma {:induction false} CleanListAppend(a: seq<string>, b: seq<string>)
    ensures CleanList(a + b) == CleanList(a) + CleanList(b)
  {
    if a == [] {
      assert a + b == b;
    } else {
      var head := if Blank(a[0]) then [] else [Strip(a[0])];
      assert (a + b)[0] == a[0];
      assert (a + b)[1..] == a[1..] + b;
      calc {
        CleanList(a + b);
        head + CleanList(a[1..] + b);
        { CleanListAppend(a[1..], b); }
        head + (CleanList(a[1..]) + CleanList(b));
        (head + CleanList(a[1..])) + CleanList(b);
        CleanList(a) + CleanList(b);
      }
    }
  }

  /** An entry whose stripped form is empty, so that `if item.strip()` rejects it. */
  predicate Blank(s: string)
  {
    Strip(s) == []
  }

  /** Positions of the entries of `xs` that are not blank, in increasing order. */
  function KeptIndices(xs: seq<string>): (ks: seq<nat>)
    ensures forall k :: 0 <= k < |ks| ==> ks[k] < |xs|
  {
    if xs == [] then []
    else
      var last := |xs| - 1;
      KeptIndices(xs[..last]) + (if Blank(xs[last]) then [] else [last])
  }

  /** The kept positions are listed in increasing order. */
  lemma {:induction false} KeptIndicesIncrease(xs: seq<string>)
    ensures forall k, l :: 0 <= k < l < |KeptIndices(xs)| ==> KeptIndices(xs)[k] < KeptIndices(xs)[l]
  {
    if xs != [] {
      var last := |xs| - 1;
      var front := KeptIndices(xs[..last]);
      KeptIndicesIncrease(xs[..last]);
      var ks := KeptIndices(xs);
      assert ks == front + (if Blank(xs[last]) then [] else [last]);
      forall k, l | 0 <= k < l < |ks|
        ensures ks[k] < ks[l]
      {
        assert ks[k] == front[k];
        if l < |front| {
          assert ks[l] == front[l];
          assert front[k] < front[l];
        } else {
          assert ks[l] == last;
          assert front[k] < |xs[..last]|;
        }
      }
    }
  }

  /** Every kept position holds a non-blank entry. */
  lemma {:induction false} KeptIndicesAreNonBlank(xs: seq<string>)
    ensures forall k :: 0 <= k < |KeptIndices(xs)| ==> !Blank(xs[KeptIndices(xs)[k]])
  {
    if xs != [] {
      var last := |xs| - 1;
      var front := KeptIndices(xs[..last]);
      KeptIndicesAreNonBlank(xs[..last]);
      var ks := KeptIndices(xs);
      assert ks == front + (if Blank(xs[last]) then [] else [last]);
      forall k | 0 <= k < |ks|
        ensures !Blank(xs[ks[k]])
      {
        if k < |front| {
          assert ks[k] == front[k];
          assert xs[..last][front[k]] == xs[front[k]];
        } else {
          assert ks[k] == last;
        }
      }
    }
  }

  /** Every non-blank entry's position is kept: `k` is where it is listed. */
  lemma {:induction false} NonBlankIndicesAreKept(xs: seq<string>, i: nat) returns (k: nat)
    requires i < |xs| && !Blank(xs[i])
    ensures k < |KeptIndices(xs)| && KeptIndices(xs)[k] == i
  {
    var last := |xs| - 1;
    var front := KeptIndices(xs[..last]);
    var ks := KeptIndices(xs);
    assert ks == front + (if Blank(xs[last]) then [] else [last]);
    if i < last {
      assert xs[..last][i] == xs[i];
      k := NonBlankIndicesAreKept(xs[..last], i);
      assert ks[k] == front[k];
    } else {
      k := |front|;
    }
  }

  /** `KeptIndices` lists exactly the positions of the non-blank entries. */
  lemma KeptIndicesAreExactlyNonBlank(xs: seq<string>)
    ensures forall i :: 0 <= i < |xs| ==> (i in KeptIndices(xs) <==> !Blank(xs[i]))
  {
    KeptIndicesAreNonBlank(xs);
    forall i | 0 <= i < |xs| && !Blank(xs[i])
      ensures i in KeptIndices(xs)
    {
      var k := NonBlankIndicesAreKept(xs, i);
    }
  }

  /** The list branch keeps exactly the non-blank entries, each replaced by its
      stripped form, in their original order. */
  lemma {:induction false} CleanListKeepsNonBlank(xs: seq<string>)
    ensures |CleanList(xs)| == |KeptIndices(xs)|
    ensures forall k :: 0 <= k < |KeptIndices(xs)| ==> CleanList(xs)[k] == Strip(xs[KeptIndices(xs)[k]])
  {
    if xs != [] {
      var last := |xs| - 1;
      assert xs == xs[..last] + [xs[last]];
      CleanListKeepsNonBlank(xs[..last]);
      CleanListAppend(xs[..last], [xs[last]]);
      assert CleanList([xs[last]]) == (if Blank(xs[last]) then [] else [Strip(xs[last])]) + CleanList([]);
      assert forall i :: 0 <= i < last ==> xs[..last][i] == xs[i];
    }
  }

  /** A list is left unchanged by cleaning exactly when none of its entries is
      blank or has surrounding whitespace. */
  lemma {:induction false} CleanListFixedPoints(ys: seq<string>)
    ensures CleanList(ys) == ys <==> forall k :: 0 <= k < |ys| ==> ys[k] != [] && Trimmed(ys[k])
  {
    CleanListEntriesAreTrimmed(ys);
    if ys != [] && forall k :: 0 <= k < |ys| ==> ys[k] != [] && Trimmed(ys[k]) {
      var rest := ys[1..];
      TrimmedIsFixed(ys[0]);
      assert !Blank(ys[0]);
      assert forall k :: 0 <= k < |rest| ==> rest[k] == ys[k + 1];
      CleanListFixedPoints(rest);
      assert CleanList(ys) == [ys[0]] + CleanList(rest);
      assert ys == [ys[0]] + rest;
    }
  }

  /** Cleaning a list twice is the same as cleaning it once. */
  lemma CleanListIdempotent(xs: seq<string>)
    ensures CleanList(CleanList(xs)) == CleanList(xs)
  {
    CleanListEntriesAreTrimmed(xs);
    CleanListFixedPoints(CleanList(xs));
  }

  /** Whether a raw value is already in the form `clean_data` produces. */
  predicate IsClean(v: Raw)
  {
    match v
    case Absent => true
    case Str(s) => Trimmed(s)
    case Lst(items) => forall k :: 0 <= k < |items| ==> items[k] != [] && Trimmed(items[k])
  }

  /** `clean_data`: strips a string, strips a list's entries and drops the blank
      ones, and returns anything else (here: `None`) as it is. */
  function Clean(v: Raw): (r: Raw)
    ensures r.Absent? == v.Absent? && r.Str? == v.Str? && r.Lst? == v.Lst?
    ensures IsClean(r)
    ensures IsClean(v) ==> r == v
    ensures v.Lst? ==> |r.items| <= |v.items|
  {
    match v
    case Absent => Absent
    case Str(s) =>
      TrimmedIsFixed(s);
      Str(Strip(s))
    case Lst(items) =>
      CleanListFixedPoints(items);
      CleanListEntriesAreTrimmed(items);
      Lst(CleanList(items))
  }

  /** Applying `clean_data` twice is the same as applying it once. */
  lemma CleanIdempotent(v: Raw)
    ensures Clean(Clean(v)) == Clean(v)
  {
  }
}
