/** Strings as the ledger uses them: IndexedDB key order, lower-casing for
    the concept search, substring search and decimal rendering of ids. */
module Text {

  /** Lexicographic order on strings, character by character, a proper
      prefix sorting first. A `char` is a Unicode scalar value, so this is
      IndexedDB's (and JavaScript's `<=`) UTF-16 code-unit order for
      strings with no character above U+FFFF. */
  predicate LexLe(a: string, b: string)
  {
    a == [] || (b != [] && (a[0] < b[0] || (a[0] == b[0] && LexLe(a[1..], b[1..]))))
  }

  predicate LexLt(a: string, b: string)
  {
    LexLe(a, b) && a != b
  }

  lemma {:induction false} LexLeTotal(a: string, b: string)
    ensures LexLe(a, b) || LexLe(b, a)
  {
    if a != [] && b != [] && a[0] == b[0] {
      LexLeTotal(a[1..], b[1..]);
    }
  }

  lemma {:induction false} LexLeAntisymmetric(a: string, b: string)
    requires LexLe(a, b) && LexLe(b, a)
    ensures a == b
  {
    if a != [] && b != [] {
      LexLeAntisymmetric(a[1..], b[1..]);
      assert a == [a[0]] + a[1..];
      assert b == [b[0]] + b[1..];
    }
  }

  lemma {:induction false} LexLeTransitive(a: string, b: string, c: string)
    requires LexLe(a, b) && LexLe(b, c)
    ensures LexLe(a, c)
  {
    if a != [] && b != [] && c != [] && a[0] == b[0] && b[0] == c[0] {
      LexLeTransitive(a[1..], b[1..], c[1..]);
    }
  }

  /** When `a` is not at or below `b`, `b` is strictly below `a`. */
  lemma LexNotLe(a: string, b: string)
    requires !LexLe(a, b)
    ensures LexLt(b, a)
  {
    LexLeTotal(a, b);
  }

  /** Every non-empty finite set of strings has a least element: what an
      index walk over string keys visits first. */
  lemma LeastExists(s: set<string>)
    requires s != {}
    ensures exists m :: m in s && forall x :: x in s ==> LexLe(m, x)
  {
    var m := Least(s);
  }

  /** The least string of a non-empty set, by induction on its size. */
  lemma {:induction false} Least(s: set<string>) returns (m: string)
    requires s != {}
    ensures m in s && forall x :: x in s ==> LexLe(m, x)
    decreases |s|
  {
    var y :| y in s;
    LexLeTotal(y, y);
    if s == {y} {
      m := y;
      forall x | x in s ensures LexLe(y, x) {
        assert x == y;
      }
    } else {
      var rest := s - {y};
      var least := Least(rest);
      if LexLe(least, y) {
        m := least;
        forall x | x in s ensures LexLe(m, x) {
          if x != y {
            assert x in rest;
          }
        }
      } else {
        m := y;
        LexNotLe(least, y);
        forall x | x in s ensures LexLe(y, x) {
          if x != y {
            assert x in rest;
            LexLeTransitive(y, least, x);
          }
        }
      }
    }
  }

  /** `String.prototype.toLowerCase` restricted to ASCII letters. */
  function LowerChar(c: char): char
  {
    if 'A' <= c <= 'Z' then (c as int + 32) as char else c
  }

  function Lower(s: string): string
  {
    seq(|s|, i requires 0 <= i < |s| => LowerChar(s[i]))
  }

  predicate IsPrefix(p: string, s: string)
  {
    |p| <= |s| && s[..|p|] == p
  }

  /** U+FFFF, the largest character of the Basic Multilingual Plane; the
      upper end of the source's prefix key ranges. */
  const MaxCodeUnit: char := '\U{FFFF}'

  /** The key range from `p` to `p + "\uffff"`, the usual prefix search
      over string keys: every key in it starts with `p`, and every key
      that starts with `p` and does not continue with a character at or
      above U+FFFF is in it. */
  lemma {:induction false} PrefixRange(p: string, s: string)
    ensures LexLe(p, s) && LexLe(s, p + [MaxCodeUnit]) ==> IsPrefix(p, s)
    ensures IsPrefix(p, s) && (|s| == |p| || s[|p|] < MaxCodeUnit) ==> LexLe(p, s) && LexLe(s, p + [MaxCodeUnit])
  {
    if p != [] && s != [] {
      PrefixRange(p[1..], s[1..]);
      assert (p + [MaxCodeUnit])[1..] == p[1..] + [MaxCodeUnit];
      assert IsPrefix(p, s) ==> s[0] == p[0] && IsPrefix(p[1..], s[1..]) by {
        if IsPrefix(p, s) {
          assert s[..|p|][0] == s[0];
          assert s[1..][..|p| - 1] == s[..|p|][1..];
        }
      }
      assert s[0] == p[0] && IsPrefix(p[1..], s[1..]) ==> IsPrefix(p, s) by {
        if s[0] == p[0] && IsPrefix(p[1..], s[1..]) {
          assert s[..|p|] == [s[0]] + s[1..][..|p| - 1];
          assert p == [p[0]] + p[1..];
        }
      }
    }
  }

  /** `text.includes(term)`: the term occurs at some position of the text. */
  predicate Contains(text: string, term: string)
    decreases |text|
  {
    IsPrefix(term, text) || (text != [] && Contains(text[1..], term))
  }

  predicate OccursAt(text: string, term: string, i: int)
  {
    0 <= i && i + |term| <= |text| && text[i..i + |term|] == term
  }

  /** The recursive search finds the term exactly when it occurs at some index. */
  lemma {:induction false} ContainsIffOccurs(text: string, term: string)
    ensures Contains(text, term) <==> exists i :: OccursAt(text, term, i)
    decreases |text|
  {
    if IsPrefix(term, text) {
      assert OccursAt(text, term, 0);
    } else if text == [] {
      assert |term| > 0;
    } else {
      ContainsIffOccurs(text[1..], term);
      if Contains(text[1..], term) {
        var i :| OccursAt(text[1..], term, i);
        OccursShift(text, term, i + 1);
      } else {
        forall i ensures !OccursAt(text, term, i) {
          if 0 < i {
            OccursShift(text, term, i);
          } else if i == 0 && |term| <= |text| {
            assert text[0..|term|] == text[..|term|];
          }
        }
      }
    }
  }

  /** An occurrence past the first character is an occurrence in the rest. */
  lemma OccursShift(text: string, term: string, i: int)
    requires text != [] && 0 < i
    ensures OccursAt(text, term, i) <==> OccursAt(text[1..], term, i - 1)
  {
    if i + |term| <= |text| {
      assert text[1..][i - 1..i - 1 + |term|] == text[i..i + |term|];
    }
  }

  /** Every string contains the empty string, as `includes('')` is true. */
  lemma {:induction false} ContainsEmpty(text: string)
    ensures Contains(text, [])
  {
    assert IsPrefix([], text);
  }

  function Digit(d: nat): char
    requires d < 10
  {
    "0123456789"[d]
  }

  /** Decimal rendering of an id, as template literals print numbers. */
  function Decimal(n: nat): (r: string)
    ensures |r| >= 1
    ensures forall i :: 0 <= i < |r| ==> '0' <= r[i] <= '9'
  {
    if n < 10 then [Digit(n)] else Decimal(n / 10) + [Digit(n % 10)]
  }
}
