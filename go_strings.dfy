/** The parts of Go's `strings` package the core relies on: splitting on a
    one-character separator, joining, and trimming surrounding white space.
    Strings are sequences of characters; white space is the fixed ASCII set
    space, tab, line feed, carriage return, vertical tab and form feed. */
module GoStrings {

  predicate IsSpace(c: char)
  {
    c == ' ' || c == '\t' || c == '\n' || c == '\r' || c == '\U{B}' || c == '\U{C}'
  }

  ghost predicate AllSpace(s: string)
  {
    forall k :: 0 <= k < |s| ==> IsSpace(s[k])
  }

  /** The pieces of `s` between occurrences of `sep`, as `strings.Split(s, sep)`
      returns them for a one-character separator: the empty string gives one
      empty piece, and `n` separators give `n + 1` pieces. */
  function Split(s: string, sep: char): (r: seq<string>)
    ensures |r| >= 1
    ensures forall k :: 0 <= k < |r| ==> sep !in r[k]
  {
    if s == [] then [""]
    else
      var rest := Split(s[1..], sep);
      if s[0] == sep then [""] + rest
      else [[s[0]] + rest[0]] + rest[1..]
  }

  /** The elements of `xs` with `sep` between neighbours, as `strings.Join`. */
  function Join(xs: seq<string>, sep: char): string
  {
    if xs == [] then ""
    else if |xs| == 1 then xs[0]
    else xs[0] + [sep] + Join(xs[1..], sep)
  }

  /** Joining the pieces of a split gives back the string. */
  lemma {:induction false} JoinSplit(s: string, sep: char)
    ensures Join(Split(s, sep), sep) == s
  {
    if s != [] {
      var rest := Split(s[1..], sep);
      JoinSplit(s[1..], sep);
      if s[0] != sep && |rest| > 1 {
        assert Join(rest, sep) == rest[0] + [sep] + Join(rest[1..], sep);
        assert Split(s, sep)[1..] == rest[1..];
      }
    }
  }

  /** Splitting a string with no separator in its first part leaves that
      part at the head of the first piece. */
  lemma {:induction false} SplitPrefix(x: string, s: string, sep: char)
    requires sep !in x
    ensures Split(x + s, sep) == [x + Split(s, sep)[0]] + Split(s, sep)[1..]
    decreases |x|
  {
    if x != [] {
      assert (x + s)[1..] == x[1..] + s;
      SplitPrefix(x[1..], s, sep);
      assert [x[0]] + (x[1..] + Split(s, sep)[0]) == x + Split(s, sep)[0];
    } else {
      var r := Split(s, sep);
      assert x + s == s;
      assert x + r[0] == r[0];
      assert r == [r[0]] + r[1..];
    }
  }

  /** Splitting a join of separator-free pieces gives back the pieces. */
  lemma {:induction false} SplitJoin(xs: seq<string>, sep: char)
    requires |xs| >= 1
    requires forall k :: 0 <= k < |xs| ==> sep !in xs[k]
    ensures Split(Join(xs, sep), sep) == xs
  {
    if |xs| == 1 {
      SplitPrefix(xs[0], "", sep);
      assert xs[0] + "" == xs[0];
    } else {
      var tail := Join(xs[1..], sep);
      SplitJoin(xs[1..], sep);
      assert xs[0] + [sep] + tail == xs[0] + ([sep] + tail);
      SplitPrefix(xs[0], [sep] + tail, sep);
      assert ([sep] + tail)[1..] == tail;
      assert xs[0] + "" == xs[0];
    }
  }

  /** A join of three elements. */
  lemma Join3(a: string, b: string, c: string, sep: char)
    ensures Join([a, b, c], sep) == a + [sep] + b + [sep] + c
  {
    assert [a, b, c][1..] == [b, c];
    assert [b, c][1..] == [c];
    assert Join([b, c], sep) == b + [sep] + c;
    assert Join([a, b, c], sep) == a + [sep] + (b + [sep] + c);
  }

  /** Adding one more element to a non-empty join adds one separator. */
  lemma {:induction false} JoinSnoc(xs: seq<string>, x: string, sep: char)
    requires |xs| >= 1
    ensures Join(xs + [x], sep) == Join(xs, sep) + [sep] + x
  {
    if |xs| > 1 {
      assert (xs + [x])[1..] == xs[1..] + [x];
      JoinSnoc(xs[1..], x, sep);
    }
  }

  /** A split yields one piece more than there are separators. */
  lemma {:induction false} SplitLength(s: string, sep: char)
    ensures |Split(s, sep)| == CountChar(s, sep) + 1
  {
    if s != [] {
      SplitLength(s[1..], sep);
      assert s == [s[0]] + s[1..];
      CountCharAppend([s[0]], s[1..], sep);
    }
  }

  /** How many times `c` occurs in `s`, as `strings.Count` for one character. */
  function CountChar(s: string, c: char): nat
  {
    if s == [] then 0 else (if s[0] == c then 1 else 0) + CountChar(s[1..], c)
  }

  lemma {:induction false} CountCharAppend(a: string, b: string, c: char)
    ensures CountChar(a + b, c) == CountChar(a, c) + CountChar(b, c)
  {
    if a != [] {
      assert (a + b)[1..] == a[1..] + b;
      CountCharAppend(a[1..], b, c);
    } else {
      assert a + b == b;
    }
  }

  /** `s` without its leading white space (TrimLeftSpec). */
  function TrimLeft(s: string): (r: string)
    ensures |r| <= |s|
  {
    if s != [] && IsSpace(s[0]) then TrimLeft(s[1..]) else s
  }

  /** `s` without its trailing white space (TrimRightSpec). */
  function TrimRight(s: string): (r: string)
    ensures |r| <= |s|
  {
    if s != [] && IsSpace(s[|s| - 1]) then TrimRight(s[..|s| - 1]) else s
  }

  /** TrimLeft drops a prefix made of white space and stops at the first
      other character. */
  lemma {:induction false} TrimLeftSpec(s: string)
    ensures TrimLeft(s) == s[|s| - |TrimLeft(s)|..]
    ensures forall k :: 0 <= k < |s| - |TrimLeft(s)| ==> IsSpace(s[k])
    ensures TrimLeft(s) == [] || !IsSpace(TrimLeft(s)[0])
  {
    if s != [] && IsSpace(s[0]) {
      TrimLeftSpec(s[1..]);
      forall k | 1 <= k < |s| - |TrimLeft(s)| ensures IsSpace(s[k]) {
        assert s[k] == s[1..][k - 1];
      }
    }
  }

  /** TrimRight drops a suffix made of white space and stops at the last
      other character. */
  lemma {:induction false} TrimRightSpec(s: string)
    ensures TrimRight(s) == s[..|TrimRight(s)|]
    ensures forall k :: |TrimRight(s)| <= k < |s| ==> IsSpace(s[k])
    ensures TrimRight(s) == [] || !IsSpace(TrimRight(s)[|TrimRight(s)| - 1])
  {
    if s != [] && IsSpace(s[|s| - 1]) {
      TrimRightSpec(s[..|s| - 1]);
    }
  }

  /** `s` without leading and trailing white space, as `strings.TrimSpace`:
      the result neither starts nor ends with white space (TrimSpaceSlice:
      it is the slice of `s` after the leading white space; TrimSpaceCutsSpace:
      everything cut off is white space). */
  function TrimSpace(s: string): (r: string)
    ensures r == [] || (!IsSpace(r[0]) && !IsSpace(r[|r| - 1]))
  {
    var left := TrimLeft(s);
    TrimLeftSpec(s);
    TrimRightSpec(left);
    var r := TrimRight(left);
    assert r != [] ==> r[0] == left[0];
    r
  }

  /** The trimmed string is the slice of `s` that starts after its leading
      white space. */
  lemma TrimSpaceSlice(s: string)
    ensures var i := |s| - |TrimLeft(s)|;
      i + |TrimSpace(s)| <= |s| && TrimSpace(s) == s[i..i + |TrimSpace(s)|]
  {
    var left := TrimLeft(s);
    TrimLeftSpec(s);
    TrimRightSpec(left);
    var r := TrimRight(left);
    var i := |s| - |left|;
    assert r == left[..|r|];
  }

  /** Everything `TrimSpace` cuts off, on either side, is white space. */
  lemma TrimSpaceCutsSpace(s: string)
    ensures var i := |s| - |TrimLeft(s)|;
      && (forall k :: 0 <= k < i ==> IsSpace(s[k]))
      && (forall k :: i + |TrimSpace(s)| <= k < |s| ==> IsSpace(s[k]))
  {
    var left := TrimLeft(s);
    TrimLeftSpec(s);
    TrimRightSpec(left);
    var r := TrimSpace(s);
    var i := |s| - |left|;
    forall k | i + |r| <= k < |s| ensures IsSpace(s[k]) {
      assert s[k] == left[k - i];
    }
  }

  /** Trimming leaves nothing exactly when the string is all white space. */
  lemma TrimSpaceEmpty(s: string)
    ensures TrimSpace(s) == [] <==> AllSpace(s)
  {
    TrimLeftSpec(s);
    TrimRightSpec(TrimLeft(s));
  }

  /** Trimming twice is trimming once. */
  lemma TrimSpaceIdempotent(s: string)
    ensures TrimSpace(TrimSpace(s)) == TrimSpace(s)
  {
  }

  /** Every string of `xs` is all white space. */
  ghost predicate AllPiecesSpace(xs: seq<string>)
  {
    forall k :: 0 <= k < |xs| ==> AllSpace(xs[k])
  }

  lemma AllSpaceCons(c: char, s: string)
    ensures AllSpace([c] + s) <==> IsSpace(c) && AllSpace(s)
  {
    var t := [c] + s;
    if AllSpace(t) {
      assert IsSpace(t[0]);
      forall k | 0 <= k < |s| ensures IsSpace(s[k]) {
        assert s[k] == t[k + 1];
      }
    }
    if IsSpace(c) && AllSpace(s) {
      forall k | 0 <= k < |t| ensures IsSpace(t[k]) {
        if k > 0 { assert t[k] == s[k - 1]; }
      }
    }
  }

  lemma AllPiecesSpaceCons(x: string, xs: seq<string>)
    ensures AllPiecesSpace([x] + xs) <==> AllSpace(x) && AllPiecesSpace(xs)
  {
    var t := [x] + xs;
    if AllPiecesSpace(t) {
      assert AllSpace(t[0]);
      forall k | 0 <= k < |xs| ensures AllSpace(xs[k]) {
        assert xs[k] == t[k + 1];
      }
    }
    if AllSpace(x) && AllPiecesSpace(xs) {
      forall k | 0 <= k < |t| ensures AllSpace(t[k]) {
        if k > 0 { assert t[k] == xs[k - 1]; }
      }
    }
  }

  /** A string is all white space exactly when every piece of its split on a
      white-space separator is. */
  lemma {:induction false} SplitAllSpace(s: string, sep: char)
    requires IsSpace(sep)
    ensures AllSpace(s) <==> AllPiecesSpace(Split(s, sep))
  {
    if s != [] {
      var rest := Split(s[1..], sep);
      SplitAllSpace(s[1..], sep);
      assert s == [s[0]] + s[1..];
      AllSpaceCons(s[0], s[1..]);
      assert rest == [rest[0]] + rest[1..];
      AllPiecesSpaceCons(rest[0], rest[1..]);
      if s[0] != sep {
        AllSpaceCons(s[0], rest[0]);
        AllPiecesSpaceCons([s[0]] + rest[0], rest[1..]);
      } else {
        AllPiecesSpaceCons("", rest);
      }
    }
  }
}
