/** The string operations of Python that the parsers rely on, for one-character
    separators: `str.split(sep)` and `str.replace(c, '')`. */
module Text {

  /** `s.split(sep)`: the pieces between the separators, always at least one piece
      (splitting the empty string gives `[""]`). */
  function Split(s: string, sep: char): (pieces: seq<string>)
    ensures |pieces| >= 1
    ensures forall i :: 0 <= i < |pieces| ==> sep !in pieces[i]
    decreases |s|
  {
    if s == [] then [[]]
    else
      var rest := Split(s[1..], sep);
      if s[0] == sep then [[]] + rest
      else [[s[0]] + rest[0]] + rest[1..]
  }

  /** `sep.join(pieces)`. */
  function Join(pieces: seq<string>, sep: char): string
  {
    if |pieces| == 0 then []
    else if |pieces| == 1 then pieces[0]
    else pieces[0] + [sep] + Join(pieces[1..], sep)
  }

  /** `s.replace(c, '')`: every occurrence of `c` is deleted, nothing else changes. */
  function Delete(s: string, c: char): string
    decreases |s|
  {
    if s == [] then []
    else
      (if s[0] == c then [] else [s[0]]) + Delete(s[1..], c)
  }

  /** There is one piece more than there are separators. */
  lemma {:induction false} SplitCount(s: string, sep: char)
    ensures |Split(s, sep)| == multiset(s)[sep] + 1
    decreases |s|
  {
    if s != [] {
      SplitCount(s[1..], sep);
      assert s == [s[0]] + s[1..];
    }
  }

  /** Deleting `c` removes every `c` and keeps every other character as often as before. */
  lemma {:induction false} DeleteCount(s: string, c: char)
    ensures multiset(Delete(s, c)) == multiset(s)[c := 0]
    decreases |s|
  {
    if s != [] {
      DeleteCount(s[1..], c);
      assert s == [s[0]] + s[1..];
    }
  }

  /** Joining the pieces of a split with the same separator gives the text back. */
  lemma {:induction false} JoinSplit(s: string, sep: char)
    ensures Join(Split(s, sep), sep) == s
    decreases |s|
  {
    if s != [] {
      JoinSplit(s[1..], sep);
      var rest := Split(s[1..], sep);
      if s[0] == sep {
        assert Split(s, sep) == [[]] + rest;
        assert ([[]] + rest)[1..] == rest;
      } else {
        assert Split(s, sep) == [[s[0]] + rest[0]] + rest[1..];
        if |rest| > 1 {
          assert ([[s[0]] + rest[0]] + rest[1..])[1..] == rest[1..];
          assert Join(rest, sep) == rest[0] + [sep] + Join(rest[1..], sep);
        }
        assert s == [s[0]] + s[1..];
      }
    }
  }

  /** Text without the separator is a single piece. */
  lemma {:induction false} SplitWithoutSeparator(a: string, sep: char)
    requires sep !in a
    ensures Split(a, sep) == [a]
    decreases |a|
  {
    if a != [] {
      SplitWithoutSeparator(a[1..], sep);
      assert a == [a[0]] + a[1..];
    }
  }

  /** The first separator closes the first piece. */
  lemma {:induction false} SplitAtFirstSeparator(a: string, sep: char, b: string)
    requires sep !in a
    ensures Split(a + [sep] + b, sep) == [a] + Split(b, sep)
    decreases |a|
  {
    if a == [] {
      assert a + [sep] + b == [sep] + b;
      assert ([sep] + b)[1..] == b;
    } else {
      SplitAtFirstSeparator(a[1..], sep, b);
      assert (a + [sep] + b)[1..] == a[1..] + [sep] + b;
      assert a == [a[0]] + a[1..];
    }
  }

  /** Splitting a join of separator-free pieces gives the pieces back. */
  lemma {:induction false} SplitJoin(pieces: seq<string>, sep: char)
    requires |pieces| >= 1
    requires forall i :: 0 <= i < |pieces| ==> sep !in pieces[i]
    ensures Split(Join(pieces, sep), sep) == pieces
    decreases |pieces|
  {
    if |pieces| == 1 {
      SplitWithoutSeparator(pieces[0], sep);
    } else {
      SplitJoin(pieces[1..], sep);
      SplitAtFirstSeparator(pieces[0], sep, Join(pieces[1..], sep));
      assert pieces == [pieces[0]] + pieces[1..];
    }
  }

  /** Text without `c` is left as it is. */
  lemma {:induction false} DeleteAbsent(s: string, c: char)
    requires c !in s
    ensures Delete(s, c) == s
    decreases |s|
  {
    if s != [] {
      DeleteAbsent(s[1..], c);
      assert s == [s[0]] + s[1..];
    }
  }

  /** Deleting from a text that starts with `x`. */
  lemma DeleteCons(x: char, t: string, c: char)
    ensures Delete([x] + t, c) == (if x == c then [] else [x]) + Delete(t, c)
  {
    assert ([x] + t)[1..] == t;
  }

  /** Deleting a character that occurs once, between two texts without it, joins them. */
  lemma {:induction false} DeleteBetween(a: string, c: char, b: string)
    requires c !in a && c !in b
    ensures Delete(a + [c] + b, c) == a + b
    decreases |a|
  {
    if a == [] {
      assert a + [c] + b == [c] + b;
      DeleteCons(c, b, c);
      DeleteAbsent(b, c);
    } else {
      DeleteBetween(a[1..], c, b);
      assert a + [c] + b == [a[0]] + (a[1..] + [c] + b);
      DeleteCons(a[0], a[1..] + [c] + b, c);
      assert a + b == [a[0]] + (a[1..] + b);
    }
  }

  /** A separator at the very end leaves an empty last piece. */
  lemma {:induction false} SplitTrailingSeparator(a: string, sep: char)
    ensures Split(a + [sep], sep)[|Split(a + [sep], sep)| - 1] == []
    decreases |a|
  {
    if a == [] {
      assert a + [sep] == [sep];
      assert [sep][1..] == [];
    } else {
      SplitTrailingSeparator(a[1..], sep);
      assert (a + [sep])[1..] == a[1..] + [sep];
      assert (a + [sep])[0] == a[0];
    }
  }
}
