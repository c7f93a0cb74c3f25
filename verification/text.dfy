/**
 * The string operations of Ruby and Rails that the plugin relies on:
 * `String#split` with a one-character separator, `String#blank?`,
 * `String#downcase` and the `to_s` used by string interpolation.
 */
module Text {

  /** The ASCII characters matched by `[[:space:]]`. */
  predicate IsSpace(c: char) {
    c == ' ' || c == '\t' || c == '\n' || c == '\U{0B}' || c == '\U{0C}' || c == '\r'
  }

  /** Rails `String#blank?`: empty or made only of white space. */
  predicate BlankString(s: string) {
    forall i :: 0 <= i < |s| ==> IsSpace(s[i])
  }

  /**
   * Every field between occurrences of `sep`, empty ones included;
   * a string always has at least one field.
   */
  function SplitAll(s: string, sep: char): (fields: seq<string>)
    ensures |fields| >= 1
    ensures forall k :: 0 <= k < |fields| ==> sep !in fields[k]
  {
    if |s| == 0 then [""]
    else
      var rest := SplitAll(s[1..], sep);
      if s[0] == sep then [""] + rest else [[s[0]] + rest[0]] + rest[1..]
  }

  /** The inverse of `SplitAll`: the fields with `sep` between them. */
  function Join(fields: seq<string>, sep: char): string {
    if |fields| == 0 then ""
    else if |fields| == 1 then fields[0]
    else fields[0] + [sep] + Join(fields[1..], sep)
  }

  /** Removes the empty fields at the end of `fields`. */
  function DropTrailingEmpty(fields: seq<string>): (r: seq<string>)
    ensures r <= fields
    ensures |r| == 0 || r[|r| - 1] != ""
    ensures forall k :: |r| <= k < |fields| ==> fields[k] == ""
  {
    if |fields| > 0 && fields[|fields| - 1] == "" then DropTrailingEmpty(fields[..|fields| - 1])
    else fields
  }

  /**
   * Ruby `s.split(sep)` for a one-character separator other than a
   * space: the fields of `s`, with the empty fields at the end dropped
   * (so `"".split(sep)` is `[]`).
   */
  function Split(s: string, sep: char): (fields: seq<string>)
    ensures forall k :: 0 <= k < |fields| ==> sep !in fields[k]
    ensures |fields| == 0 || fields[|fields| - 1] != ""
    ensures |fields| == 0 <==> forall i :: 0 <= i < |s| ==> s[i] == sep
  {
    var all := SplitAll(s, sep);
    var r := DropTrailingEmpty(all);
    SplitAllOnlySeparators(s, sep);
    assert |r| == 0 <==> forall k :: 0 <= k < |all| ==> all[k] == "" by {
      if |r| > 0 {
        assert r[|r| - 1] == all[|r| - 1];
      }
    }
    r
  }

  /** Every field is empty exactly when the string is nothing but separators. */
  lemma {:induction false} SplitAllOnlySeparators(s: string, sep: char)
    ensures (forall k :: 0 <= k < |SplitAll(s, sep)| ==> SplitAll(s, sep)[k] == "")
        <==> (forall i :: 0 <= i < |s| ==> s[i] == sep)
  {
    if |s| > 0 {
      var rest := SplitAll(s[1..], sep);
      SplitAllOnlySeparators(s[1..], sep);
      if s[0] == sep {
        var fields := SplitAll(s, sep);
        assert fields == [""] + rest;
        if forall i :: 0 <= i < |s| ==> s[i] == sep {
          assert forall i :: 0 <= i < |s[1..]| ==> s[1..][i] == s[i + 1];
        }
        if forall k :: 0 <= k < |fields| ==> fields[k] == "" {
          assert forall k :: 0 <= k < |rest| ==> rest[k] == fields[k + 1];
          assert forall i :: 1 <= i < |s| ==> s[i] == s[1..][i - 1];
        }
      } else {
        assert SplitAll(s, sep)[0] != "";
      }
    }
  }

  /** `SplitAll` loses nothing: joining its fields gives the string back. */
  lemma {:induction false} JoinSplitAll(s: string, sep: char)
    ensures Join(SplitAll(s, sep), sep) == s
  {
    if |s| > 0 {
      var rest := SplitAll(s[1..], sep);
      JoinSplitAll(s[1..], sep);
      if s[0] == sep {
        assert SplitAll(s, sep) == [""] + rest;
        assert ([""] + rest)[1..] == rest;
        assert s == [sep] + s[1..];
      } else {
        var fields := SplitAll(s, sep);
        assert fields == [[s[0]] + rest[0]] + rest[1..];
        if |rest| == 1 {
          assert s == [s[0]] + rest[0];
        } else {
          assert fields[1..] == rest[1..];
          assert Join(rest, sep) == rest[0] + [sep] + Join(rest[1..], sep);
          assert s == [s[0]] + s[1..];
        }
      }
    }
  }

  /** A field with no separator in front of more text is split off first. */
  lemma {:induction false} SplitAllFirstField(a: string, sep: char, b: string)
    requires sep !in a
    ensures SplitAll(a + [sep] + b, sep) == [a] + SplitAll(b, sep)
  {
    if |a| == 0 {
      assert a + [sep] + b == [sep] + b;
      assert ([sep] + b)[1..] == b;
    } else {
      SplitAllFirstField(a[1..], sep, b);
      assert (a + [sep] + b)[1..] == a[1..] + [sep] + b;
      assert [a[0]] + a[1..] == a;
    }
  }

  /** A string without the separator is a single field. */
  lemma {:induction false} SplitAllNoSeparator(a: string, sep: char)
    requires sep !in a
    ensures SplitAll(a, sep) == [a]
  {
    if |a| > 0 {
      SplitAllNoSeparator(a[1..], sep);
      assert [a[0]] + a[1..] == a;
    }
  }

  /** Splitting what `Join` built gives back the fields it was built from. */
  lemma {:induction false} SplitAllJoin(fields: seq<string>, sep: char)
    requires |fields| >= 1
    requires forall k :: 0 <= k < |fields| ==> sep !in fields[k]
    ensures SplitAll(Join(fields, sep), sep) == fields
  {
    if |fields| == 1 {
      SplitAllNoSeparator(fields[0], sep);
    } else {
      SplitAllJoin(fields[1..], sep);
      SplitAllFirstField(fields[0], sep, Join(fields[1..], sep));
      assert [fields[0]] + fields[1..] == fields;
    }
  }

  /** ASCII `String#downcase`. */
  function Lower(s: string): (r: string)
    ensures |r| == |s|
    ensures forall i :: 0 <= i < |s| ==> (if 'A' <= s[i] <= 'Z' then r[i] == s[i] - 'A' + 'a' else r[i] == s[i])
  {
    if |s| == 0 then "" else [LowerChar(s[0])] + Lower(s[1..])
  }

  function LowerChar(c: char): char {
    if 'A' <= c <= 'Z' then (c - 'A' + 'a') as char else c
  }

  /** The number a string of decimal digits denotes, most significant digit first. */
  function DigitsValue(digits: string): int {
    if |digits| == 0 then 0
    else DigitsValue(digits[..|digits| - 1]) * 10 + (digits[|digits| - 1] as int - '0' as int)
  }

  /**
   * Decimal digits of a natural number, as `Integer#to_s` prints them:
   * they denote `n`, with no leading zero.
   */
  function NatToString(n: nat): (r: string)
    ensures |r| >= 1
    ensures forall i :: 0 <= i < |r| ==> '0' <= r[i] <= '9'
    ensures DigitsValue(r) == n
    ensures r[0] == '0' ==> n == 0
  {
    if n < 10 then [Digit(n)]
    else
      var init := NatToString(n / 10);
      assert (init + [Digit(n % 10)])[..|init|] == init;
      init + [Digit(n % 10)]
  }

  function Digit(d: nat): char
    requires d < 10
  {
    ('0' as int + d) as char
  }

  /** `Integer#to_s`: a minus sign in front of the digits of a negative number. */
  function IntToString(n: int): string {
    if n < 0 then "-" + NatToString(-n) else NatToString(n)
  }

  /** Distinct numbers print differently. */
  lemma IntToStringInjective(a: int, b: int)
    requires IntToString(a) == IntToString(b)
    ensures a == b
  {
    if a < 0 && b < 0 {
      assert NatToString(-a) == IntToString(a)[1..];
      assert NatToString(-b) == IntToString(b)[1..];
    }
  }

  /** `downcase` is idempotent. */
  lemma LowerIdempotent(s: string)
    ensures Lower(Lower(s)) == Lower(s)
  {
  }
}
