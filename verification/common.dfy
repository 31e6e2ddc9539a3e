/** Values shared by the controllers: an optional value, the JavaScript
    values that arrive in request bodies with JavaScript's truthiness, and
    decimal digit strings. */
module Common {

  datatype Option<T> = None | Some(value: T)

  /** The JSON values a request body field can hold (numbers are integers
      here; NaN and fractions are not modelled). */
  datatype JsValue = Undefined | Null | Bool(b: bool) | Num(n: int) | Str(s: string)

  /** JavaScript truthiness: `if (v)` and `v || d` take the first branch. */
  predicate Truthy(v: JsValue)
  {
    match v
    case Undefined => false
    case Null => false
    case Bool(b) => b
    case Num(n) => n != 0
    case Str(s) => s != ""
  }

  /** `v || d` */
  function Or(v: JsValue, d: JsValue): JsValue
  {
    if Truthy(v) then v else d
  }

  predicate IsDigit(c: char)
  {
    '0' <= c <= '9'
  }

  predicate AllDigits(s: string)
  {
    forall i :: 0 <= i < |s| ==> IsDigit(s[i])
  }

  /** The value of a string of decimal digits, most significant first. */
  function ParseDigits(s: string): nat
    requires AllDigits(s)
  {
    if s == [] then 0 else ParseDigits(s[..|s| - 1]) * 10 + (s[|s| - 1] as int - '0' as int)
  }

  lemma ParseTwoDigits(s: string)
    requires |s| == 2 && AllDigits(s)
    ensures ParseDigits(s) == (s[0] as int - '0' as int) * 10 + (s[1] as int - '0' as int)
  {
    assert s[..|s| - 1] == [s[0]];
    assert [s[0]][..0] == [];
    assert ParseDigits([s[0]]) == ParseDigits([]) * 10 + (s[0] as int - '0' as int);
  }

  /** The shortest decimal spelling of n. */
  function DecimalString(n: nat): (s: string)
    ensures s != [] && AllDigits(s)
  {
    var last := [(n % 10 + '0' as int) as char];
    if n < 10 then last else DecimalString(n / 10) + last
  }

  /** Reading back the decimal spelling of a number gives the number. */
  lemma {:induction false} ParseDecimalString(n: nat)
    ensures ParseDigits(DecimalString(n)) == n
  {
    var s := DecimalString(n);
    var last := [(n % 10 + '0' as int) as char];
    if n >= 10 {
      assert s == DecimalString(n / 10) + last;
      assert s[..|s| - 1] == DecimalString(n / 10);
      ParseDecimalString(n / 10);
    }
  }

  /** No value occurs twice. */
  predicate NoDuplicates<T(==)>(xs: seq<T>)
  {
    forall i, j :: 0 <= i < j < |xs| ==> xs[i] != xs[j]
  }

  /** A `DELETE ... WHERE` on a table of rows: every row equal to x goes,
      the others stay in order; the delete affected rows exactly when x
      was there. */
  function Without<T(==,!new)>(rows: seq<T>, x: T): (kept: seq<T>)
    ensures forall r :: r in kept <==> r in rows && r != x
    ensures forall r :: multiset(kept)[r] == if r == x then 0 else multiset(rows)[r]
    ensures |kept| <= |rows|
    ensures |kept| == |rows| <==> x !in rows
  {
    if rows == [] then []
    else
      var last := rows[|rows| - 1];
      assert rows == rows[..|rows| - 1] + [last];
      Without(rows[..|rows| - 1], x) + (if last != x then [last] else [])
  }

  /** Deleting from a table with one more row at the end. */
  lemma WithoutSnoc<T(!new)>(rows: seq<T>, last: T, x: T)
    ensures last == x ==> Without(rows + [last], x) == Without(rows, x)
    ensures last != x ==> Without(rows + [last], x) == Without(rows, x) + [last]
  {
    assert (rows + [last])[..|rows|] == rows;
    if last == x {
      assert Without(rows, x) + [] == Without(rows, x);
    }
  }

  /** The delete works row by row: deleting from a table split in two is
      deleting from each part, so the rows kept stay in their order. */
  lemma {:induction false} WithoutAppend<T(!new)>(a: seq<T>, b: seq<T>, x: T)
    ensures Without(a + b, x) == Without(a, x) + Without(b, x)
  {
    if b != [] {
      var last := b[|b| - 1];
      var front := b[..|b| - 1];
      assert (a + b)[..|a + b| - 1] == a + front;
      assert (a + b)[|a + b| - 1] == last;
      WithoutAppend(a, front, x);
    } else {
      assert a + b == a;
    }
  }

  /** Deleting a row just appended, when it was not there before, gives
      back the table as it was. */
  lemma {:induction false} WithoutAppended<T(!new)>(rows: seq<T>, x: T)
    requires x !in rows
    ensures Without(rows + [x], x) == rows
    decreases |rows|
  {
    var ext := rows + [x];
    assert ext[..|ext| - 1] == rows;
    WithoutAbsent(rows, x);
  }

  /** Deleting a row that is not there changes nothing. */
  lemma {:induction false} WithoutAbsent<T(!new)>(rows: seq<T>, x: T)
    requires x !in rows
    ensures Without(rows, x) == rows
    decreases |rows|
  {
    if rows != [] {
      assert rows == rows[..|rows| - 1] + [rows[|rows| - 1]];
      WithoutAbsent(rows[..|rows| - 1], x);
    }
  }

  /** Deleting rows keeps a table free of duplicates. */
  lemma {:induction false} NoDuplicatesWithout<T(!new)>(rows: seq<T>, x: T)
    requires NoDuplicates(rows)
    ensures NoDuplicates(Without(rows, x))
    decreases |rows|
  {
    if rows != [] {
      var prefix := rows[..|rows| - 1];
      var last := rows[|rows| - 1];
      NoDuplicatesWithout(prefix, x);
      assert last !in prefix by {
        forall k | 0 <= k < |prefix|
          ensures prefix[k] != last
        {
          assert rows[k] == prefix[k];
        }
      }
    }
  }
}
