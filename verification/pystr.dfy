/**
 The subset of Python's `str` methods that the name derivations rely on, over `seq<char>`:
 `split` and `join` with a one-character separator, `lower`/`upper` on ASCII letters,
 `replace` of one character, `startswith` and `endswith`.
 */
module PyStr {

  /** Python's `s.startswith(p)`. */
  predicate StartsWith(s: string, p: string) {
    |p| <= |s| && s[..|p|] == p
  }

  /** Python's `s.endswith(x)`. */
  predicate EndsWith(s: string, x: string) {
    |x| <= |s| && s[|s| - |x|..] == x
  }

  // ---------------------------------------------------------------------------
  // split / join

  /** Any text starts with itself once something is appended. */
  lemma StartsWithAppend(a: string, x: string)
    ensures StartsWith(a + x, a)
  {
    assert (a + x)[..|a|] == a;
  }

  /** Any text ends with itself once appended. */
  lemma EndsWithAppend(a: string, x: string)
    ensures EndsWith(a + x, x)
  {
    assert (a + x)[|a + x| - |x|..] == x;
  }

  /**
   Python's `c.join(parts)` for a one-character separator `c`: with separator-free pieces,
   the separator occurs in the result exactly when there are two or more pieces.
   */
  function Join(parts: seq<string>, c: char): (r: string)
    ensures |parts| == 1 ==> r == parts[0]
    ensures (forall i :: 0 <= i < |parts| ==> c !in parts[i]) ==> (c in r <==> |parts| >= 2)
    decreases |parts|
  {
    if |parts| == 0 then ""
    else if |parts| == 1 then parts[0]
    else parts[0] + [c] + Join(parts[1..], c)
  }

  /**
   Python's `s.split(c)` for a one-character separator: the pieces between consecutive
   occurrences of `c`. There is always at least one piece (`"".split(c) == [""]`), and no
   piece contains the separator.
   */
  function Split(s: string, c: char): (r: seq<string>)
    ensures |r| >= 1
    ensures forall i :: 0 <= i < |r| ==> c !in r[i]
    decreases |s|
  {
    if |s| == 0 then [""]
    else
      var rest := Split(s[1..], c);
      if s[0] == c then [""] + rest
      else [[s[0]] + rest[0]] + rest[1..]
  }

  /** Python's `s.split(c)[-1]`: the text after the last `c`, or all of `s` when there is none. */
  function LastField(s: string, c: char): (r: string)
    ensures c !in r
    ensures EndsWith(s, r)
    ensures c in s ==> |r| < |s| && s[|s| - |r| - 1] == c
    ensures c !in s ==> r == s
  {
    var parts := Split(s, c);
    JoinSplit(s, c);
    JoinLast(parts, c);
    SeparatorSplits(s, c);
    if c !in s then
      SplitNoSeparator(s, c);
      parts[|parts| - 1]
    else
      parts[|parts| - 1]
  }

  /** Python's `c.join(s.split(c)[:-1])`: everything before the last `c`, or "" when there is none. */
  function DropLastField(s: string, c: char): (r: string)
    ensures c in s ==> r + [c] + LastField(s, c) == s
    ensures c !in s ==> r == ""
  {
    var parts := Split(s, c);
    JoinSplit(s, c);
    SeparatorSplits(s, c);
    JoinLast(parts, c);
    Join(parts[..|parts| - 1], c)
  }

  lemma {:induction false} JoinConsHead(a: char, p: string, q: seq<string>, c: char)
    ensures Join([[a] + p] + q, c) == [a] + Join([p] + q, c)
  {
    if |q| == 0 {
    } else {
      assert ([[a] + p] + q)[1..] == q;
      assert ([p] + q)[1..] == q;
    }
  }

  /** Joining the pieces of a split restores the string: `c.join(s.split(c)) == s`. */
  lemma {:induction false} JoinSplit(s: string, c: char)
    ensures Join(Split(s, c), c) == s
    decreases |s|
  {
    if |s| == 0 {
    } else {
      var rest := Split(s[1..], c);
      JoinSplit(s[1..], c);
      if s[0] == c {
        assert Split(s, c) == [""] + rest;
        assert ([""] + rest)[1..] == rest;
        assert s == [c] + s[1..];
      } else {
        assert rest == [rest[0]] + rest[1..];
        JoinConsHead(s[0], rest[0], rest[1..], c);
        assert s == [s[0]] + s[1..];
      }
    }
  }

  /** A string without the separator splits into itself alone. */
  lemma {:induction false} SplitNoSeparator(s: string, c: char)
    requires c !in s
    ensures Split(s, c) == [s]
    decreases |s|
  {
    if |s| > 0 {
      assert c !in s[1..];
      SplitNoSeparator(s[1..], c);
      assert s == [s[0]] + s[1..];
    }
  }

  /** Splitting at one separator: `(a + c + b).split(c) == a.split(c) + b.split(c)`. */
  lemma {:induction false} SplitAtSeparator(a: string, b: string, c: char)
    ensures Split(a + [c] + b, c) == Split(a, c) + Split(b, c)
    decreases |a|
  {
    var s := a + [c] + b;
    if |a| == 0 {
      assert s[0] == c && s[1..] == b;
    } else {
      assert s[0] == a[0];
      assert s[1..] == a[1..] + [c] + b;
      SplitAtSeparator(a[1..], b, c);
    }
  }

  /** The separator occurs in `s` exactly when the split has more than one piece. */
  lemma SeparatorSplits(s: string, c: char)
    ensures c in s <==> |Split(s, c)| >= 2
  {
    if c in s {
      var i :| 0 <= i < |s| && s[i] == c;
      assert s == s[..i] + [c] + s[i + 1..];
      SplitAtSeparator(s[..i], s[i + 1..], c);
    } else {
      SplitNoSeparator(s, c);
    }
  }

  /** Appending a piece to a non-empty list of pieces appends a separator and the piece. */
  lemma {:induction false} JoinSnoc(p: seq<string>, x: string, c: char)
    requires |p| >= 1
    ensures Join(p + [x], c) == Join(p, c) + [c] + x
    decreases |p|
  {
    if |p| == 1 {
      assert (p + [x])[1..] == [x];
    } else {
      assert (p + [x])[1..] == p[1..] + [x];
      JoinSnoc(p[1..], x, c);
    }
  }

  /** The joined string ends with the last piece, preceded by a separator when there are two or more. */
  lemma JoinLast(p: seq<string>, c: char)
    requires |p| >= 1
    ensures |p| >= 2 ==> Join(p, c) == Join(p[..|p| - 1], c) + [c] + p[|p| - 1]
    ensures |p| == 1 ==> Join(p, c) == p[0]
  {
    if |p| >= 2 {
      assert p == p[..|p| - 1] + [p[|p| - 1]];
      JoinSnoc(p[..|p| - 1], p[|p| - 1], c);
    }
  }

  /** Splitting a joined list of separator-free pieces returns the pieces: the converse round trip. */
  lemma {:induction false} SplitJoin(parts: seq<string>, c: char)
    requires |parts| >= 1
    requires forall i :: 0 <= i < |parts| ==> c !in parts[i]
    ensures Split(Join(parts, c), c) == parts
    decreases |parts|
  {
    if |parts| == 1 {
      SplitNoSeparator(parts[0], c);
    } else {
      SplitJoin(parts[1..], c);
      SplitAtSeparator(parts[0], Join(parts[1..], c), c);
      SplitNoSeparator(parts[0], c);
      assert parts == [parts[0]] + parts[1..];
    }
  }

  /** The last field after appending a separator and a separator-free tail is that tail. */
  lemma LastFieldAfterSeparator(a: string, b: string, c: char)
    requires c !in b
    ensures LastField(a + [c] + b, c) == b
    ensures DropLastField(a + [c] + b, c) == a
  {
    SplitAtSeparator(a, b, c);
    SplitNoSeparator(b, c);
    var pa := Split(a, c);
    assert (pa + [b])[..|pa|] == pa;
    JoinSplit(a, c);
  }

  /** The joined string begins with the first piece. */
  lemma {:induction false} JoinStartsWithFirst(p: seq<string>, c: char)
    requires |p| >= 1
    ensures StartsWith(Join(p, c), p[0])
  {
    if |p| >= 2 {
      assert Join(p, c) == p[0] + ([c] + Join(p[1..], c));
    }
  }

  /**
   `s.split(c)[0]` and `s.split(c)[1]`, when there are two pieces: the text before the first
   `c` and the text after it up to the next `c` or the end; together with the first `c` they
   begin `s`.
   */
  lemma SplitFirstTwo(s: string, c: char)
    requires |Split(s, c)| >= 2
    ensures StartsWith(s, Split(s, c)[0] + [c] + Split(s, c)[1])
    ensures var k := |Split(s, c)[0]| + 1 + |Split(s, c)[1]|; k == |s| || s[k] == c
  {
    var p := Split(s, c);
    JoinSplit(s, c);
    JoinStartsWithFirst(p[1..], c);
    assert s == p[0] + [c] + Join(p[1..], c);
    var j := Join(p[1..], c);
    assert (p[0] + [c] + j)[..|p[0]| + 1 + |p[1]|] == p[0] + [c] + j[..|p[1]|];
    if |p| >= 3 {
      assert j == p[1] + [c] + Join(p[2..], c) by {
        assert p[1..][1..] == p[2..];
      }
      assert j[|p[1]|] == c;
    } else {
      assert j == p[1];
    }
  }

  // ---------------------------------------------------------------------------
  // lower / upper

  predicate IsAsciiUpper(ch: char) { 'A' <= ch <= 'Z' }
  predicate IsAsciiLower(ch: char) { 'a' <= ch <= 'z' }

  function LowerChar(ch: char): char {
    if IsAsciiUpper(ch) then (ch as int + 32) as char else ch
  }

  function UpperChar(ch: char): char {
    if IsAsciiLower(ch) then (ch as int - 32) as char else ch
  }

  /** Python's `s.lower()` restricted to ASCII letters: no upper-case letter survives, nothing else moves. */
  function Lower(s: string): (r: string)
    ensures |r| == |s|
    ensures forall i :: 0 <= i < |r| ==> !IsAsciiUpper(r[i])
    ensures forall i :: 0 <= i < |s| && !IsAsciiUpper(s[i]) ==> r[i] == s[i]
    ensures forall i :: 0 <= i < |s| && IsAsciiUpper(s[i]) ==> UpperChar(r[i]) == s[i]
  {
    seq(|s|, i requires 0 <= i < |s| => LowerChar(s[i]))
  }

  /** Python's `s.upper()` restricted to ASCII letters: no lower-case letter survives, nothing else moves. */
  function Upper(s: string): (r: string)
    ensures |r| == |s|
    ensures forall i :: 0 <= i < |r| ==> !IsAsciiLower(r[i])
    ensures forall i :: 0 <= i < |s| && !IsAsciiLower(s[i]) ==> r[i] == s[i]
    ensures forall i :: 0 <= i < |s| && IsAsciiLower(s[i]) ==> LowerChar(r[i]) == s[i]
  {
    seq(|s|, i requires 0 <= i < |s| => UpperChar(s[i]))
  }

  /** A character that is not an ASCII letter occurs in the case-changed string iff it occurs in the original. */
  lemma CaseChangeKeepsOtherChars(s: string, ch: char)
    requires !IsAsciiUpper(ch) && !IsAsciiLower(ch)
    ensures ch in Lower(s) <==> ch in s
    ensures ch in Upper(s) <==> ch in s
  {
    var lo, up := Lower(s), Upper(s);
    if ch in s {
      var i :| 0 <= i < |s| && s[i] == ch;
      assert lo[i] == ch && up[i] == ch;
    }
    if ch in lo {
      var i :| 0 <= i < |lo| && lo[i] == ch;
      assert s[i] == ch;
    }
    if ch in up {
      var i :| 0 <= i < |up| && up[i] == ch;
      assert s[i] == ch;
    }
  }

  /** Lower-casing works piecewise. */
  lemma LowerConcat(a: string, b: string)
    ensures Lower(a + b) == Lower(a) + Lower(b)
  {
    assert forall i :: 0 <= i < |a + b| ==> Lower(a + b)[i] == (Lower(a) + Lower(b))[i];
  }

  /** Lower-casing is idempotent, and lower-casing forgets a preceding upper-casing. */
  lemma LowerAbsorbs(s: string)
    ensures Lower(Lower(s)) == Lower(s)
    ensures Lower(Upper(s)) == Lower(s)
  {
    assert forall i :: 0 <= i < |s| ==> Lower(Upper(s))[i] == Lower(s)[i];
  }

  // ---------------------------------------------------------------------------
  // replace

  /**
   Python's `s.replace(c, t)` for a one-character `c`: every occurrence of `c` becomes `t`.
   A result character is either from `t` or an unreplaced character of `s`, and every
   character of `s` other than `c` survives.
   */
  function ReplaceChar(s: string, c: char, t: string): (r: string)
    ensures forall x :: x in r ==> x in t || (x in s && x != c)
    ensures forall x :: x in s && x != c ==> x in r
    ensures c in s ==> forall x :: x in t ==> x in r
    decreases |s|
  {
    if |s| == 0 then ""
    else (if s[0] == c then t else [s[0]]) + ReplaceChar(s[1..], c, t)
  }

  /** Replacement distributes over concatenation. */
  lemma {:induction false} ReplaceCharAppend(a: string, b: string, c: char, t: string)
    ensures ReplaceChar(a + b, c, t) == ReplaceChar(a, c, t) + ReplaceChar(b, c, t)
    decreases |a|
  {
    if |a| > 0 {
      assert (a + b)[0] == a[0];
      assert (a + b)[1..] == a[1..] + b;
      ReplaceCharAppend(a[1..], b, c, t);
      var head := if a[0] == c then t else [a[0]];
      calc {
        ReplaceChar(a + b, c, t);
        head + ReplaceChar(a[1..] + b, c, t);
        head + (ReplaceChar(a[1..], c, t) + ReplaceChar(b, c, t));
        (head + ReplaceChar(a[1..], c, t)) + ReplaceChar(b, c, t);
      }
    } else {
      assert a + b == b;
    }
  }

  /** Replacing a character that does not occur changes nothing. */
  lemma {:induction false} ReplaceCharAbsent(s: string, c: char, t: string)
    requires c !in s
    ensures ReplaceChar(s, c, t) == s
    decreases |s|
  {
    if |s| > 0 {
      assert c !in s[1..];
      ReplaceCharAbsent(s[1..], c, t);
      assert s == [s[0]] + s[1..];
    }
  }
}
