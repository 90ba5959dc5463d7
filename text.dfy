/**
  The Python string operations the statistics rely on: `str.split()` with no
  separator, `str.lower()`, the substring test `w in text`, `" ".join(...)`
  and the ordering Python uses when it compares two strings.
*/
module Text {
  import opened Sequences

  /** The characters `str.split()` treats as whitespace (`str.isspace()`). */
  predicate IsSpace(c: char)
  {
    ('\t' <= c <= '\r') || ('\U{1C}' <= c <= '\U{1F}') || c == ' '
    || c == '\U{85}' || c == '\U{A0}' || c == '\U{1680}' || ('\U{2000}' <= c <= '\U{200A}')
    || c == '\U{2028}' || c == '\U{2029}' || c == '\U{202F}' || c == '\U{205F}' || c == '\U{3000}'
  }

  predicate NoSpace(s: string)
  {
    forall i :: 0 <= i < |s| ==> !IsSpace(s[i])
  }

  /** A whitespace-free, non-empty piece of text: what `str.split()` produces. */
  predicate IsToken(t: string)
  {
    t != [] && NoSpace(t)
  }

  // ---------------------------------------------------------------------------
  // str.split()

  /** Splitting the rest `s` of a string while the token `cur` is being read. */
  function SplitFrom(s: string, cur: string): seq<string>
    decreases |s|
  {
    if s == [] then (if cur == [] then [] else [cur])
    else if IsSpace(s[0]) then (if cur == [] then [] else [cur]) + SplitFrom(s[1..], [])
    else SplitFrom(s[1..], cur + [s[0]])
  }

  /** `s.split()`: the maximal runs of non-whitespace characters, in order. */
  function Split(s: string): seq<string>
  {
    SplitFrom(s, [])
  }

  lemma {:induction false} SplitFromTokens(s: string, cur: string)
    requires NoSpace(cur)
    ensures forall t :: t in SplitFrom(s, cur) ==> IsToken(t)
  {
    if s != [] {
      if IsSpace(s[0]) {
        SplitFromTokens(s[1..], []);
      } else {
        SplitFromTokens(s[1..], cur + [s[0]]);
      }
    }
  }

  /** Every piece of `s.split()` is non-empty and holds no whitespace. */
  lemma SplitTokens(s: string)
    ensures forall t :: t in Split(s) ==> IsToken(t)
  {
    SplitFromTokens(s, []);
  }

  lemma {:induction false} SplitFromChars(s: string, cur: string, t: string, c: char)
    requires t in SplitFrom(s, cur) && c in t
    ensures c in cur || c in s
  {
    if s != [] {
      if IsSpace(s[0]) {
        if t !in (if cur == [] then [] else [cur]) {
          SplitFromChars(s[1..], [], t, c);
        }
      } else {
        SplitFromChars(s[1..], cur + [s[0]], t, c);
      }
    }
  }

  /** Every character of a piece of `s.split()` is a character of `s`. */
  lemma SplitChars(s: string, t: string, c: char)
    requires t in Split(s) && c in t
    ensures c in s
  {
    SplitFromChars(s, [], t, c);
  }

  /** A whitespace character separates: splitting `a + [c] + b` splits `a` and `b` apart. */
  lemma {:induction false} SplitFromAroundSpace(a: string, c: char, b: string, cur: string)
    requires IsSpace(c)
    ensures SplitFrom(a + [c] + b, cur) == SplitFrom(a, cur) + SplitFrom(b, [])
    decreases |a|
  {
    if a == [] {
      assert a + [c] + b == [c] + b;
      assert ([c] + b)[1..] == b;
    } else {
      assert (a + [c] + b)[0] == a[0];
      assert (a + [c] + b)[1..] == a[1..] + [c] + b;
      if IsSpace(a[0]) {
        SplitFromAroundSpace(a[1..], c, b, []);
      } else {
        SplitFromAroundSpace(a[1..], c, b, cur + [a[0]]);
      }
    }
  }

  lemma {:induction false} SplitFromToken(t: string, cur: string)
    requires NoSpace(t)
    ensures SplitFrom(t, cur) == if cur + t == [] then [] else [cur + t]
    decreases |t|
  {
    if t == [] {
      assert cur + t == cur;
    } else {
      assert (cur + [t[0]]) + t[1..] == cur + t;
      SplitFromToken(t[1..], cur + [t[0]]);
    }
  }

  /** Splitting a token gives back that token alone. */
  lemma SplitToken(t: string)
    requires IsToken(t)
    ensures Split(t) == [t]
  {
    SplitFromToken(t, []);
    assert [] + t == t;
  }

  /** The pieces of `s.split()`, glued together, are the non-whitespace characters of `s`. */
  lemma {:induction false} SplitFromConcat(s: string, cur: string)
    ensures Concat(SplitFrom(s, cur)) == cur + Filter(s, IsWordChar)
    decreases |s|
  {
    if s == [] {
      assert cur + [] == cur;
    } else {
      assert s == [s[0]] + s[1..];
      if IsSpace(s[0]) {
        SplitFromConcat(s[1..], []);
        ConcatAppend(if cur == [] then [] else [cur], SplitFrom(s[1..], []));
        assert [] + Filter(s[1..], IsWordChar) == Filter(s[1..], IsWordChar);
      } else {
        SplitFromConcat(s[1..], cur + [s[0]]);
        assert Filter(s, IsWordChar) == [s[0]] + Filter(s[1..], IsWordChar);
      }
    }
  }

  predicate IsWordChar(c: char)
  {
    !IsSpace(c)
  }

  lemma SplitConcat(s: string)
    ensures Concat(Split(s)) == Filter(s, IsWordChar)
  {
    SplitFromConcat(s, []);
    assert [] + Filter(s, IsWordChar) == Filter(s, IsWordChar);
  }

  /** The concatenation of a list of strings (`"".join(ts)`). */
  function Concat(ts: seq<string>): string
  {
    if ts == [] then [] else ts[0] + Concat(ts[1..])
  }

  lemma {:induction false} ConcatAppend(a: seq<string>, b: seq<string>)
    ensures Concat(a + b) == Concat(a) + Concat(b)
  {
    if a == [] {
      assert a + b == b;
    } else {
      assert (a + b)[1..] == a[1..] + b;
      ConcatAppend(a[1..], b);
    }
  }

  // ---------------------------------------------------------------------------
  // " ".join(ms)

  /** `" ".join(ms)`, also `Series.str.cat(sep=" ")`. */
  function JoinSpace(ms: seq<string>): string
  {
    if ms == [] then []
    else if |ms| == 1 then ms[0]
    else ms[0] + " " + JoinSpace(ms[1..])
  }

  /** Splitting text joined with single spaces splits each part on its own. */
  lemma {:induction false} SplitJoinSpace(ms: seq<string>)
    ensures Split(JoinSpace(ms)) == FlatMap(ms, Split)
  {
    if ms == [] {
    } else if |ms| == 1 {
      assert ms[1..] == [];
      assert FlatMap(ms, Split) == Split(ms[0]) + [];
    } else {
      SplitFromAroundSpace(ms[0], ' ', JoinSpace(ms[1..]), []);
      assert ms[0] + " " + JoinSpace(ms[1..]) == ms[0] + [' '] + JoinSpace(ms[1..]);
      SplitJoinSpace(ms[1..]);
    }
  }

  lemma {:induction false} FlatMapSplitTokens(ts: seq<string>)
    requires forall t :: t in ts ==> IsToken(t)
    ensures FlatMap(ts, Split) == ts
  {
    if ts != [] {
      SplitToken(ts[0]);
      FlatMapSplitTokens(ts[1..]);
      assert ts == [ts[0]] + ts[1..];
    }
  }

  /** Joining tokens with spaces and splitting again gives the tokens back. */
  lemma SplitJoinTokens(ts: seq<string>)
    requires forall t :: t in ts ==> IsToken(t)
    ensures Split(JoinSpace(ts)) == ts
  {
    SplitJoinSpace(ts);
    FlatMapSplitTokens(ts);
  }

  // ---------------------------------------------------------------------------
  // str.lower()

  /** Lower-casing of one character: ASCII and Latin-1 capitals; every other character is kept. */
  function LowerChar(c: char): char
  {
    if 'A' <= c <= 'Z' || ('\U{C0}' <= c <= '\U{DE}' && c != '\U{D7}') then (c as int + 32) as char
    else c
  }

  function Lower(s: string): (r: string)
    ensures |r| == |s|
    ensures forall i :: 0 <= i < |s| ==> r[i] == LowerChar(s[i])
  {
    seq(|s|, i requires 0 <= i < |s| => LowerChar(s[i]))
  }

  predicate IsLowerCase(s: string)
  {
    forall i :: 0 <= i < |s| ==> LowerChar(s[i]) == s[i]
  }

  /** `s.lower()` is lower case, so lower-casing it again changes nothing. */
  lemma LowerIsLowerCase(s: string)
    ensures IsLowerCase(Lower(s))
    ensures Lower(Lower(s)) == Lower(s)
  {
  }

  /** Every piece of `s.lower().split()` is lower case. */
  lemma SplitLowerIsLowerCase(s: string, t: string)
    requires t in Split(Lower(s))
    ensures IsLowerCase(t)
  {
    LowerIsLowerCase(s);
    forall i | 0 <= i < |t|
      ensures LowerChar(t[i]) == t[i]
    {
      SplitChars(Lower(s), t, t[i]);
    }
  }

  // ---------------------------------------------------------------------------
  // w in text, for two strings

  predicate OccursAt(w: string, text: string, i: nat)
  {
    i + |w| <= |text| && text[i..i + |w|] == w
  }

  /** Python's `w in text` for two strings: `w` is a substring of `text`. */
  function IsSubstring(w: string, text: string): (b: bool)
    ensures b <==> exists i: nat :: OccursAt(w, text, i)
    decreases |text|
  {
    if |w| > |text| then false
    else if text[..|w|] == w then
      assert OccursAt(w, text, 0);
      true
    else
      var b := IsSubstring(w, text[1..]);
      assert b ==> exists i: nat :: OccursAt(w, text, i) by {
        if b {
          var i: nat :| OccursAt(w, text[1..], i);
          assert text[1..][i..i + |w|] == text[i + 1..i + 1 + |w|];
          assert OccursAt(w, text, i + 1);
        }
      }
      assert (exists i: nat :: OccursAt(w, text, i)) ==> b by {
        if exists i: nat :: OccursAt(w, text, i) {
          var i: nat :| OccursAt(w, text, i);
          assert i != 0;
          assert text[1..][i - 1..i - 1 + |w|] == text[i..i + |w|];
          assert OccursAt(w, text[1..], i - 1);
        }
      }
      b
  }

  /** Nothing but the empty string is a substring of the empty text. */
  lemma NothingInEmptyText(w: string)
    requires w != []
    ensures !IsSubstring(w, [])
  {
  }

  // ---------------------------------------------------------------------------
  // Python's string comparison

  /** `a < b` for Python strings: lexicographic order on code points. */
  predicate StrLess(a: string, b: string)
    decreases |a|
  {
    if a == [] then b != []
    else if b == [] then false
    else if a[0] != b[0] then a[0] < b[0]
    else StrLess(a[1..], b[1..])
  }

  lemma {:induction false} StrLessIrreflexive(a: string)
    ensures !StrLess(a, a)
    decreases |a|
  {
    if a != [] {
      StrLessIrreflexive(a[1..]);
    }
  }

  lemma {:induction false} StrLessTransitive(a: string, b: string, c: string)
    requires StrLess(a, b) && StrLess(b, c)
    ensures StrLess(a, c)
    decreases |a|
  {
    if a != [] && b != [] && c != [] && a[0] == b[0] && b[0] == c[0] {
      StrLessTransitive(a[1..], b[1..], c[1..]);
    }
  }

  lemma {:induction false} StrLessTotal(a: string, b: string)
    requires a != b
    ensures StrLess(a, b) || StrLess(b, a)
    decreases |a|
  {
    if a != [] && b != [] && a[0] == b[0] {
      assert a == [a[0]] + a[1..] && b == [b[0]] + b[1..];
      StrLessTotal(a[1..], b[1..]);
    }
  }
}
