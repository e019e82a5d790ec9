/**
 * The string primitives the channel-file parser relies on: `str.strip()`,
 * `str.split(',')` and `int(...)`, each restricted to the ASCII behaviour the
 * channel file needs.
 */
module Text {
  import opened Wrappers

  // ---------------------------------------------------------------------------
  // Whitespace and strip
  // ---------------------------------------------------------------------------

  /** ASCII whitespace as `str.isspace()` sees it: tab, line feed, vertical tab,
      form feed, carriage return, the separators 0x1C-0x1F, and space. */
  predicate IsSpace(c: char) {
    9 <= c as int <= 13 || 28 <= c as int <= 32
  }

  predicate AllSpace(s: string) {
    forall i :: 0 <= i < |s| ==> IsSpace(s[i])
  }

  /** No whitespace at either end. */
  predicate Trimmed(s: string) {
    s == [] || (!IsSpace(s[0]) && !IsSpace(s[|s| - 1]))
  }

  /** Drops leading whitespace. */
  function TrimLeft(s: string): string {
    if |s| > 0 && IsSpace(s[0]) then TrimLeft(s[1..]) else s
  }

  /** Drops trailing whitespace. */
  function TrimRight(s: string): string {
    if |s| > 0 && IsSpace(s[|s| - 1]) then TrimRight(s[..|s| - 1]) else s
  }

  /** `s.strip()`. */
  function Strip(s: string): string {
    TrimRight(TrimLeft(s))
  }

  /** `TrimLeft` keeps the suffix that starts at the first non-space character. */
  lemma {:induction false} TrimLeftSpec(s: string)
    ensures |TrimLeft(s)| <= |s|
    ensures TrimLeft(s) == s[|s| - |TrimLeft(s)|..]
    ensures AllSpace(s[..|s| - |TrimLeft(s)|])
    ensures TrimLeft(s) == [] || !IsSpace(TrimLeft(s)[0])
  {
    if |s| > 0 && IsSpace(s[0]) {
      var rest := s[1..];
      TrimLeftSpec(rest);
      var r := TrimLeft(rest);
      assert TrimLeft(s) == r;
      var n := |s| - |r|;
      assert r == s[n..] by {
        assert rest[n - 1..] == s[n..];
      }
      forall i | 0 <= i < n ensures IsSpace(s[..n][i]) {
        if i > 0 {
          assert s[..n][i] == rest[..n - 1][i - 1];
        }
      }
    }
  }

  /** `TrimRight` keeps the prefix that ends at the last non-space character. */
  lemma {:induction false} TrimRightSpec(s: string)
    ensures |TrimRight(s)| <= |s|
    ensures TrimRight(s) == s[..|TrimRight(s)|]
    ensures AllSpace(s[|TrimRight(s)|..])
    ensures TrimRight(s) == [] || !IsSpace(TrimRight(s)[|TrimRight(s)| - 1])
  {
    if |s| > 0 && IsSpace(s[|s| - 1]) {
      var init := s[..|s| - 1];
      TrimRightSpec(init);
      var r := TrimRight(init);
      assert TrimRight(s) == r;
      var n := |r|;
      assert r == s[..n] by {
        assert init[..n] == s[..n];
      }
      var tailSpace := s[n..];
      forall k | 0 <= k < |tailSpace| ensures IsSpace(tailSpace[k]) {
        if k < |tailSpace| - 1 {
          assert tailSpace[k] == init[n..][k];
        }
      }
    }
  }

  /** `Strip(s)` is a contiguous slice of `s`, only whitespace lies around it,
      and it has no whitespace at either end. */
  lemma StripSpec(s: string)
    ensures exists i, j :: 0 <= i <= j <= |s| && Strip(s) == s[i..j] && AllSpace(s[..i]) && AllSpace(s[j..])
    ensures Trimmed(Strip(s))
  {
    var i, j := StripBounds(s);
  }

  /** The two cut points of `Strip(s)`: whitespace before `i` and from `j` on. */
  lemma StripBounds(s: string) returns (i: nat, j: nat)
    ensures i <= j <= |s| && Strip(s) == s[i..j]
    ensures AllSpace(s[..i]) && AllSpace(s[j..])
    ensures Trimmed(Strip(s))
  {
    var left := TrimLeft(s);
    var r := TrimRight(left);
    TrimLeftSpec(s);
    TrimRightSpec(left);
    i := |s| - |left|;
    j := i + |r|;
    assert r == left[..|r|];
    assert left == s[i..];
    assert r == s[i..j];
    assert s[j..] == left[|r|..];
  }

  /** A string with no whitespace at either end is its own strip. */
  lemma StripUnchanged(s: string)
    requires Trimmed(s)
    ensures Strip(s) == s
  {
  }

  /** Stripping twice is the same as stripping once. */
  lemma StripIdempotent(s: string)
    ensures Strip(Strip(s)) == Strip(s)
  {
    StripSpec(s);
    StripUnchanged(Strip(s));
  }

  /** Trimming the front of a concatenation trims into the second part only
      when the first part is all whitespace. */
  lemma {:induction false} TrimLeftConcat(x: string, y: string)
    ensures TrimLeft(x + y) == if TrimLeft(x) == [] then TrimLeft(y) else TrimLeft(x) + y
  {
    if x == [] {
      assert x + y == y;
    } else {
      assert (x + y)[0] == x[0];
      if IsSpace(x[0]) {
        assert (x + y)[1..] == x[1..] + y;
        TrimLeftConcat(x[1..], y);
      }
    }
  }

  /** Trimming the back of a concatenation trims into the first part only
      when the second part is all whitespace. */
  lemma {:induction false} TrimRightConcat(x: string, y: string)
    ensures TrimRight(x + y) == if TrimRight(y) == [] then TrimRight(x) else x + TrimRight(y)
  {
    if y == [] {
      assert x + y == x;
    } else {
      var s := x + y;
      assert s[|s| - 1] == y[|y| - 1];
      if IsSpace(y[|y| - 1]) {
        assert s[..|s| - 1] == x + y[..|y| - 1];
        TrimRightConcat(x, y[..|y| - 1]);
      }
    }
  }

  /** Stripping what `TrimLeft` left gives the strip of the original. */
  lemma StripTrimLeft(s: string)
    ensures Strip(TrimLeft(s)) == Strip(s)
  {
    TrimLeftSpec(s);
  }

  /** Stripping what `TrimRight` left gives the strip of the original. */
  lemma {:induction false} StripTrimRight(s: string)
    ensures Strip(TrimRight(s)) == Strip(s)
  {
    if |s| > 0 && IsSpace(s[|s| - 1]) {
      var init := s[..|s| - 1];
      var last := [s[|s| - 1]];
      assert s == init + last;
      StripTrimRight(init);
      TrimLeftConcat(init, last);
      var left := TrimLeft(init);
      if left != [] {
        assert (left + last)[..|left + last| - 1] == left;
      }
    }
  }

  /** Stripping a string with a non-space character `c` in it trims only the
      part before `c` from the front and the part after it from the back. */
  lemma StripAround(a: string, c: char, b: string)
    requires !IsSpace(c)
    ensures Strip(a + [c] + b) == TrimLeft(a) + [c] + TrimRight(b)
  {
    var cb := [c] + b;
    assert a + [c] + b == a + cb;
    assert TrimLeft(cb) == cb;
    TrimLeftConcat(a, cb);
    var left := TrimLeft(a);
    assert TrimLeft(a + cb) == left + [c] + b;
    var lc := left + [c];
    assert lc[|lc| - 1] == c;
    assert TrimRight(lc) == lc;
    TrimRightConcat(lc, b);
  }

  /** Stripping removes only whitespace: a non-space character occurs as often
      in `Strip(s)` as in `s`. */
  lemma StripKeepsNonSpace(s: string, c: char)
    requires !IsSpace(c)
    ensures multiset(Strip(s))[c] == multiset(s)[c]
  {
    var i, j := StripBounds(s);
    assert s == s[..i] + s[i..j] + s[j..];
    NoSpaceCount(s[..i], c);
    NoSpaceCount(s[j..], c);
  }

  lemma {:induction false} NoSpaceCount(s: string, c: char)
    requires AllSpace(s) && !IsSpace(c)
    ensures multiset(s)[c] == 0
  {
    if s != [] {
      assert s == [s[0]] + s[1..];
      NoSpaceCount(s[1..], c);
    }
  }

  // ---------------------------------------------------------------------------
  // Split and join on a one-character separator
  // ---------------------------------------------------------------------------

  /** Concatenates `fields` with `sep` between consecutive fields. */
  function Join(fields: seq<string>, sep: char): string
    requires |fields| > 0
  {
    if |fields| == 1 then fields[0] else fields[0] + [sep] + Join(fields[1..], sep)
  }

  /** `s.split(sep)`: the pieces between occurrences of `sep`, always one more
      piece than there are separators, and an empty string splits into one
      empty piece. */
  function Split(s: string, sep: char): (fields: seq<string>)
    ensures |fields| > 0
  {
    if s == [] then [[]]
    else
      var rest := Split(s[1..], sep);
      if s[0] == sep then [[]] + rest
      else [[s[0]] + rest[0]] + rest[1..]
  }

  /** One more field than separators, and no field holds a separator. */
  lemma {:induction false} SplitSpec(s: string, sep: char)
    ensures |Split(s, sep)| == multiset(s)[sep] + 1
    ensures forall k :: 0 <= k < |Split(s, sep)| ==> sep !in Split(s, sep)[k]
  {
    if s != [] {
      var rest := Split(s[1..], sep);
      SplitSpec(s[1..], sep);
      assert s == [s[0]] + s[1..];
      assert multiset(s)[sep] == multiset(s[1..])[sep] + (if s[0] == sep then 1 else 0);
      var fields := Split(s, sep);
      if s[0] == sep {
        assert fields[1..] == rest;
      } else {
        assert fields[1..] == rest[1..];
      }
    }
  }

  /** Prepending a character to the first field prepends it to the joined text. */
  lemma JoinCons(c: char, fields: seq<string>, sep: char)
    requires |fields| > 0
    ensures Join([[c] + fields[0]] + fields[1..], sep) == [c] + Join(fields, sep)
  {
    var glued := [[c] + fields[0]] + fields[1..];
    assert glued[1..] == fields[1..];
  }

  /** Two fields joined are the first, the separator, then the second. */
  lemma JoinTwo(a: string, b: string, sep: char)
    ensures Join([a, b], sep) == a + [sep] + b
  {
    assert [a, b][1..] == [b];
  }

  /** Split then join gives back the original string. */
  lemma {:induction false} JoinSplit(s: string, sep: char)
    ensures Join(Split(s, sep), sep) == s
  {
    if s != [] {
      JoinSplit(s[1..], sep);
      var rest := Split(s[1..], sep);
      assert s == [s[0]] + s[1..];
      if s[0] == sep {
        assert ([[]] + rest)[1..] == rest;
      } else {
        JoinCons(s[0], rest, sep);
      }
    }
  }

  /** Splitting a string that starts with a separator-free prefix `a` glues `a`
      onto the first piece. */
  lemma {:induction false} SplitPrefix(a: string, rest: string, sep: char)
    requires sep !in a
    ensures Split(a + rest, sep) == [a + Split(rest, sep)[0]] + Split(rest, sep)[1..]
  {
    if a != [] {
      SplitPrefix(a[1..], rest, sep);
      assert (a + rest)[1..] == a[1..] + rest;
      assert [a[0]] + (a[1..] + Split(rest, sep)[0]) == a + Split(rest, sep)[0];
    } else {
      var pieces := Split(rest, sep);
      assert a + rest == rest;
      assert a + pieces[0] == pieces[0];
      assert pieces == [pieces[0]] + pieces[1..];
    }
  }

  /** Join then split is the identity when no field holds the separator. */
  lemma {:induction false} SplitJoin(fields: seq<string>, sep: char)
    requires |fields| > 0
    requires forall k :: 0 <= k < |fields| ==> sep !in fields[k]
    ensures Split(Join(fields, sep), sep) == fields
  {
    if |fields| == 1 {
      SplitPrefix(fields[0], [], sep);
      assert fields[0] + [] == fields[0];
      assert Split([], sep) == [[]];
    } else {
      var tail := Join(fields[1..], sep);
      SplitJoin(fields[1..], sep);
      var sepTail := [sep] + tail;
      assert sepTail[1..] == tail;
      var pieces := Split(sepTail, sep);
      assert pieces == [[]] + fields[1..];
      SplitPrefix(fields[0], sepTail, sep);
      assert Join(fields, sep) == fields[0] + sepTail;
      assert fields[0] + pieces[0] == fields[0];
      assert pieces[1..] == fields[1..];
      assert fields == [fields[0]] + fields[1..];
    }
  }

  // ---------------------------------------------------------------------------
  // Decimal integers
  // ---------------------------------------------------------------------------

  predicate IsDigit(c: char) {
    '0' <= c <= '9'
  }

  predicate AllDigits(s: string) {
    forall i :: 0 <= i < |s| ==> IsDigit(s[i])
  }

  function DigitValue(c: char): nat
    requires IsDigit(c)
  {
    c as int - '0' as int
  }

  function DigitChar(d: nat): char
    requires d < 10
  {
    ('0' as int + d) as char
  }

  /** The value of a string of decimal digits, most significant first; leading
      zeros contribute nothing and the empty string is 0. */
  function DigitsValue(ds: string): nat
    requires AllDigits(ds)
  {
    if ds == [] then 0 else 10 * DigitsValue(ds[..|ds| - 1]) + DigitValue(ds[|ds| - 1])
  }

  /** `int(s)` for a string that has already been stripped. */
  function ParseInt(s: string): Option<int> {
    if |s| > 0 && (s[0] == '+' || s[0] == '-') then
      var digits := s[1..];
      if digits == [] || !AllDigits(digits) then None
      else if s[0] == '-' then Some(-(DigitsValue(digits) as int))
      else Some(DigitsValue(digits))
    else if s == [] || !AllDigits(s) then None
    else Some(DigitsValue(s))
  }

  /** The integer grammar `int()` accepts here: an optional `+` or `-` followed
      by one or more decimal digits, the sign applying to the digits' value. */
  lemma ParseIntSpec(s: string)
    ensures ParseInt(s).Some? ==> |s| > 0 && AllDigits(s[1..]) && (IsDigit(s[0]) || s[0] == '+' || s[0] == '-')
    ensures ParseInt(s).Some? ==> s != "+" && s != "-"
    ensures s != [] && AllDigits(s) ==> ParseInt(s) == Some(DigitsValue(s))
    ensures |s| > 1 && s[0] == '-' && AllDigits(s[1..]) ==> ParseInt(s) == Some(-(DigitsValue(s[1..]) as int))
    ensures |s| > 1 && s[0] == '+' && AllDigits(s[1..]) ==> ParseInt(s) == Some(DigitsValue(s[1..]))
  {
  }

  /** Decimal digits of `n`, most significant first, without leading zeros. */
  function ShowNat(n: nat): string {
    if n < 10 then [DigitChar(n)] else ShowNat(n / 10) + [DigitChar(n % 10)]
  }

  /** `str(n)` of a natural number is a non-empty run of digits that starts
      with `0` only for zero itself. */
  lemma {:induction false} ShowNatDigits(n: nat)
    ensures ShowNat(n) != [] && AllDigits(ShowNat(n))
    ensures ShowNat(n)[0] != '0' || n == 0
  {
    if n >= 10 {
      ShowNatDigits(n / 10);
      assert ShowNat(n)[0] == ShowNat(n / 10)[0];
    }
  }

  /** The decimal text of `n` as `str(n)` prints it. */
  function ShowInt(n: int): string {
    if n < 0 then "-" + ShowNat(-n) else ShowNat(n)
  }

  lemma {:induction false} ShowNatValue(n: nat)
    ensures AllDigits(ShowNat(n)) && DigitsValue(ShowNat(n)) == n
  {
    var ds := ShowNat(n);
    ShowNatDigits(n);
    if n >= 10 {
      ShowNatValue(n / 10);
      assert ds[..|ds| - 1] == ShowNat(n / 10);
    }
  }

  /** Printing an integer and parsing it back gives the same integer. */
  lemma ParseShowInt(n: int)
    ensures ParseInt(ShowInt(n)) == Some(n)
  {
    ParseIntSpec(ShowInt(n));
    if n < 0 {
      ShowNatValue(-n);
      assert ShowInt(n)[1..] == ShowNat(-n);
    } else {
      ShowNatValue(n);
    }
  }

  /** The decimal text of an integer has no whitespace and no comma. */
  lemma ShowIntPlain(n: int)
    ensures ShowInt(n) != [] && Trimmed(ShowInt(n))
    ensures ',' !in ShowInt(n)
  {
    var s := ShowInt(n);
    ShowNatDigits(if n < 0 then -n else n);
    assert forall i :: 0 <= i < |s| ==> IsDigit(s[i]) || s[i] == '-' by {
      if n < 0 {
        forall i | 0 <= i < |s| ensures IsDigit(s[i]) || s[i] == '-' {
          if i > 0 { assert s[i] == ShowNat(-n)[i - 1]; }
        }
      }
    }
  }
}
