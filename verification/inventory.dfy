/** Shared vocabulary of both marketplace integrations: the inventory rows read
    from the warehouse spreadsheet, the failures the sync can raise, Python's
    `int()` on decimal text, the quantity bucketing rule, and the list
    operations (`in`, `list.remove`, filtering) the reconciler is built from. */
module Inventory {

  datatype Option<T> = None | Some(value: T)

  /** The exceptions the modelled code can raise. */
  datatype Error =
    | NotAnInteger(text: string)   // ValueError raised by int(text)
    | PagesExhausted               // the listing loop had not stopped when the responses ran out

  datatype Result<T> = Ok(value: T) | Err(error: Error)

  /** One spreadsheet row: the columns "Код", "Количество" and "Цена", as text. */
  datatype Row = Row(code: string, quantity: string, price: string)

  /** What a catalogue listing loop returns: the identifiers, in page order,
      and the pagination cursor sent with each request, in request order. */
  datatype Listing = Listing(offerIds: seq<string>, cursors: seq<string>)

  // ---------------------------------------------------------------------------
  // Decimal text

  predicate IsDigit(c: char) { '0' <= c <= '9' }

  /** Every character is an ASCII digit (the empty string included). */
  predicate AllDigits(s: string) { forall i :: 0 <= i < |s| ==> IsDigit(s[i]) }

  /** Text that Python's int() accepts, restricted to plain decimal digits. */
  predicate IsDecimal(s: string) { |s| > 0 && AllDigits(s) }

  function DigitValue(c: char): (d: nat)
    requires IsDigit(c)
    ensures d < 10
  {
    (c - '0') as nat
  }

  /** The number a string of decimal digits denotes, most significant first. */
  function DigitsValue(s: string): nat
    requires AllDigits(s)
  {
    if s == [] then 0 else DigitsValue(s[..|s| - 1]) * 10 + DigitValue(s[|s| - 1])
  }

  /** Python's int(s) on a string: the value of a decimal string, a ValueError otherwise. */
  function ParseInt(s: string): (r: Result<nat>)
    ensures r.Ok? <==> IsDecimal(s)
    ensures r.Err? ==> r.error == NotAnInteger(s)
  {
    if IsDecimal(s) then Ok(DigitsValue(s)) else Err(NotAnInteger(s))
  }

  /** str(n) for a natural number: its shortest decimal text. */
  function DecimalText(n: nat): (s: string)
    ensures IsDecimal(s)
  {
    if n < 10 then ['0' + n as char] else DecimalText(n / 10) + ['0' + (n % 10) as char]
  }

  /** int(str(n)) == n. */
  lemma {:induction false} ParseIntRoundTrip(n: nat)
    ensures ParseInt(DecimalText(n)) == Ok(n)
  {
    var s := DecimalText(n);
    if n < 10 {
      assert s[..0] == [];
      assert DigitsValue(s) == DigitValue(s[0]) == n;
    } else {
      ParseIntRoundTrip(n / 10);
      assert s[..|s| - 1] == DecimalText(n / 10);
      assert DigitsValue(s) == DigitsValue(DecimalText(n / 10)) * 10 + n % 10;
    }
  }

  /** int() ignores leading zeros: "007" parses to 7. */
  lemma {:induction false} LeadingZeroIgnored(s: string)
    requires AllDigits(s)
    ensures AllDigits("0" + s) && DigitsValue("0" + s) == DigitsValue(s)
  {
    if s != [] {
      var t := "0" + s;
      assert t[..|t| - 1] == "0" + s[..|s| - 1];
      LeadingZeroIgnored(s[..|s| - 1]);
    }
  }

  // ---------------------------------------------------------------------------
  // Quantity bucketing

  /** The stock reported for a spreadsheet quantity: ">10" becomes 100, "1"
      becomes 0, anything else is passed to int(), which raises on text that
      is not a decimal number. */
  function Quantity(raw: string): (r: Result<nat>)
    ensures raw == ">10" ==> r == Ok(100)
    ensures raw == "1" ==> r == Ok(0)
    ensures raw != ">10" && raw != "1" ==> (r.Ok? <==> IsDecimal(raw))
    ensures raw != ">10" && raw != "1" && r.Ok? ==> r.value == DigitsValue(raw)
    ensures r.Err? ==> r.error == NotAnInteger(raw)
  {
    if raw == ">10" then Ok(100)
    else if raw == "1" then Ok(0)
    else ParseInt(raw)
  }

  /** The bucketing on concrete values. The rule is not monotone: "1" reports
      no stock while "2" reports 2; leading zeros are dropped by int(), so
      "01" is not caught by the "1" case. */
  lemma QuantityExamples()
    ensures Quantity(">10") == Ok(100)
    ensures Quantity("1") == Ok(0)
    ensures Quantity("7") == Ok(7)
    ensures Quantity("0") == Ok(0)
    ensures Quantity("2") == Ok(2)
    ensures Quantity("01") == Ok(1)
    ensures Quantity(">5") == Err(NotAnInteger(">5"))
    ensures Quantity("") == Err(NotAnInteger(""))
  {
    assert DigitsValue("01") == DigitsValue("0") * 10 + 1 by {
      assert "01"[..1] == "0";
    }
  }

  // ---------------------------------------------------------------------------
  // List operations

  /** The position of the first occurrence of `x` in `s`. */
  function FirstIndex<T(==)>(s: seq<T>, x: T): (i: nat)
    requires x in s
    ensures i < |s| && s[i] == x && x !in s[..i]
  {
    if s[0] == x then 0
    else
      var j := FirstIndex(s[1..], x);
      assert s[1..][..j] == s[1..j + 1];
      assert s[..j + 1] == [s[0]] + s[1..j + 1];
      j + 1
  }

  /** Python's list.remove(x): drops the first occurrence of `x`, keeping the
      order of everything else. */
  function RemoveFirst<T(==)>(s: seq<T>, x: T): (r: seq<T>)
    requires x in s
    ensures |r| == |s| - 1
    ensures multiset(r) == multiset(s) - multiset{x}
  {
    var i := FirstIndex(s, x);
    assert s == s[..i] + [x] + s[i + 1..];
    s[..i] + s[i + 1..]
  }

  predicate Distinct<T(==)>(s: seq<T>) {
    forall i, j :: 0 <= i < j < |s| ==> s[i] != s[j]
  }

  /** `a` is `b` with some elements deleted and the rest in their order. */
  predicate IsSubsequence<T(==)>(a: seq<T>, b: seq<T>)
    decreases |b|
  {
    if a == [] then true
    else if b == [] then false
    else if a[0] == b[0] then IsSubsequence(a[1..], b[1..])
    else IsSubsequence(a, b[1..])
  }

  /** A subsequence of `b` is a subsequence of `b` with one more element in front. */
  lemma {:induction false} SubsequenceOfTail<T>(a: seq<T>, b: seq<T>, y: T)
    requires IsSubsequence(a, b)
    ensures IsSubsequence(a, [y] + b)
    decreases |b|, 1
  {
    assert ([y] + b)[1..] == b;
    if a != [] && a[0] == y {
      SubsequenceTrim(a, b);
    }
  }

  /** Dropping the head of a subsequence leaves a subsequence. */
  lemma {:induction false} SubsequenceTrim<T>(a: seq<T>, b: seq<T>)
    requires a != [] && IsSubsequence(a, b)
    ensures IsSubsequence(a[1..], b)
    decreases |b|, 0
  {
    assert [b[0]] + b[1..] == b;
    if a[0] == b[0] {
      SubsequenceOfTail(a[1..], b[1..], b[0]);
    } else {
      SubsequenceTrim(a, b[1..]);
      SubsequenceOfTail(a[1..], b[1..], b[0]);
    }
  }

  lemma {:induction false} SubsequenceReflexive<T>(s: seq<T>)
    ensures IsSubsequence(s, s)
    decreases |s|
  {
    if s != [] { SubsequenceReflexive(s[1..]); }
  }

  lemma {:induction false} SubsequenceTransitive<T>(a: seq<T>, b: seq<T>, c: seq<T>)
    requires IsSubsequence(a, b) && IsSubsequence(b, c)
    ensures IsSubsequence(a, c)
    decreases |c|
  {
    if a != [] {
      assert b != [] && c != [];
      if b[0] == c[0] {
        if a[0] == b[0] {
          SubsequenceTransitive(a[1..], b[1..], c[1..]);
        } else {
          SubsequenceTransitive(a, b[1..], c[1..]);
        }
      } else {
        SubsequenceTransitive(a, b, c[1..]);
        SubsequenceOfTail(a, c[1..], c[0]);
        assert [c[0]] + c[1..] == c;
      }
    }
  }

  /** list.remove keeps every other element in its order. */
  lemma {:induction false} RemoveFirstIsSubsequence<T>(s: seq<T>, x: T)
    requires x in s
    ensures IsSubsequence(RemoveFirst(s, x), s)
    decreases |s|
  {
    var r := RemoveFirst(s, x);
    if s[0] == x {
      assert r == s[1..];
      SubsequenceReflexive(s[1..]);
      SubsequenceOfTail(s[1..], s[1..], s[0]);
      assert [s[0]] + s[1..] == s;
    } else {
      RemoveFirstPastHead(s, x);
      RemoveFirstIsSubsequence(s[1..], x);
      assert r[1..] == RemoveFirst(s[1..], x);
    }
  }

  /** list.remove of an element other than the head keeps the head. */
  lemma RemoveFirstPastHead<T>(s: seq<T>, x: T)
    requires x in s && s[0] != x
    ensures RemoveFirst(s, x) == [s[0]] + RemoveFirst(s[1..], x)
  {
    var j := FirstIndex(s[1..], x);
    assert FirstIndex(s, x) == j + 1;
    assert s[..j + 1] == [s[0]] + s[1..][..j];
    assert s[j + 2..] == s[1..][j + 1..];
  }

  /** Removing one occurrence from a list without repeats removes that element
      from its set and leaves a list without repeats. */
  lemma RemoveFirstDistinct<T>(s: seq<T>, x: T)
    requires x in s && Distinct(s)
    ensures Distinct(RemoveFirst(s, x))
    ensures forall y :: y in RemoveFirst(s, x) <==> y in s && y != x
  {
    var r := RemoveFirst(s, x);
    DistinctCounts(s);
    assert multiset(r)[x] == 0;
    forall y ensures y in r <==> y in s && y != x {
      assert y in r <==> y in multiset(r);
      assert y in s <==> y in multiset(s);
    }
    CountsDistinct(r);
  }

  /** A list without repeats: each element occurs once. */
  lemma {:induction false} DistinctCounts<T>(s: seq<T>)
    requires Distinct(s)
    ensures forall x :: multiset(s)[x] <= 1
    decreases |s|
  {
    if s != [] {
      var t := s[1..];
      assert Distinct(t) by {
        forall i, j | 0 <= i < j < |t| ensures t[i] != t[j] { assert t[i] == s[i + 1] && t[j] == s[j + 1]; }
      }
      DistinctCounts(t);
      assert s == [s[0]] + t;
      forall k | 0 <= k < |t| ensures t[k] != s[0] { assert t[k] == s[k + 1]; }
      assert s[0] !in t;
      assert multiset(s) == multiset{s[0]} + multiset(t);
    }
  }

  /** A list whose every element occurs at most once has no repeats. */
  lemma {:induction false} CountsDistinct<T>(s: seq<T>)
    requires forall x :: multiset(s)[x] <= 1
    ensures Distinct(s)
    decreases |s|
  {
    if s != [] {
      var t := s[1..];
      assert s == [s[0]] + t;
      assert multiset(s) == multiset{s[0]} + multiset(t);
      forall x ensures multiset(t)[x] <= 1 {
        assert multiset(t)[x] <= multiset(s)[x];
      }
      CountsDistinct(t);
      assert multiset(s)[s[0]] == 1 + multiset(t)[s[0]];
      assert s[0] !in t;
      forall i, j | 0 <= i < j < |s| ensures s[i] != s[j] {
        assert s[j] == t[j - 1];
        if i > 0 {
          assert s[i] == t[i - 1];
        }
      }
    }
  }

  /** Keeps, in order, the elements that satisfy `keep`. */
  function Filter<T>(s: seq<T>, keep: T -> bool): (r: seq<T>)
    ensures |r| <= |s|
    ensures forall i :: 0 <= i < |r| ==> keep(r[i]) && r[i] in s
    decreases |s|
  {
    if s == [] then []
    else
      var rest := Filter(s[..|s| - 1], keep);
      assert forall x :: x in s[..|s| - 1] ==> x in s;
      rest + (if keep(s[|s| - 1]) then [s[|s| - 1]] else [])
  }

  /** Filtering a concatenation filters each part. */
  lemma {:induction false} FilterAppend<T>(a: seq<T>, b: seq<T>, keep: T -> bool)
    ensures Filter(a + b, keep) == Filter(a, keep) + Filter(b, keep)
    decreases |b|
  {
    if b == [] {
      assert a + b == a;
    } else {
      var b0 := b[..|b| - 1];
      assert (a + b)[..|a + b| - 1] == a + b0;
      assert (a + b)[|a + b| - 1] == b[|b| - 1];
      FilterAppend(a, b0, keep);
    }
  }

  /** Every element that satisfies `keep` survives the filter. */
  lemma {:induction false} FilterComplete<T>(s: seq<T>, keep: T -> bool, i: nat)
    requires i < |s| && keep(s[i])
    ensures s[i] in Filter(s, keep)
    decreases |s|
  {
    if i < |s| - 1 {
      var init := s[..|s| - 1];
      assert init[i] == s[i];
      FilterComplete(init, keep, i);
    }
  }

  /** The filter deletes elements and never reorders them. */
  lemma {:induction false} FilterIsSubsequence<T>(s: seq<T>, keep: T -> bool)
    ensures IsSubsequence(Filter(s, keep), s)
    decreases |s|
  {
    if s != [] {
      var s0 := s[1..];
      assert s == [s[0]] + s0;
      FilterAppend([s[0]], s0, keep);
      assert [s[0]][..0] == [];
      FilterIsSubsequence(s0, keep);
      if keep(s[0]) {
        assert Filter(s, keep) == [s[0]] + Filter(s0, keep);
      } else {
        assert Filter(s, keep) == Filter(s0, keep);
        SubsequenceOfTail(Filter(s0, keep), s0, s[0]);
      }
    }
  }

  /** Python's `list` of catalogue identifiers, which the reconciler updates in
      place with `list.remove`. */
  class IdList {
    var items: seq<string>

    constructor (ids: seq<string>)
      ensures items == ids
    {
      items := ids;
    }

    /** `offer_ids.remove(id)`; the source only calls it after `id in offer_ids`. */
    method Remove(id: string)
      requires id in items
      modifies this
      ensures items == RemoveFirst(old(items), id)
    {
      items := RemoveFirst(items, id);
    }
  }
}
