/** The parts of Go's `strings` package the provisioner relies on. A Go string
    is measured in bytes; here every character stands for one byte. */
module GoStrings {

  /** strings.HasPrefix */
  predicate HasPrefix(s: string, prefix: string)
  {
    |prefix| <= |s| && s[..|prefix|] == prefix
  }

  /** strings.TrimPrefix: drops `prefix` when `s` starts with it, otherwise returns `s`. */
  function TrimPrefix(s: string, prefix: string): (r: string)
    ensures HasPrefix(s, prefix) ==> prefix + r == s
    ensures !HasPrefix(s, prefix) ==> r == s
  {
    if HasPrefix(s, prefix) then s[|prefix|..] else s
  }

  /** `sub` occurs in `s` starting at position `i`. */
  predicate OccursAt(s: string, sub: string, i: int)
  {
    0 <= i && i + |sub| <= |s| && s[i..i + |sub|] == sub
  }

  /** strings.Contains: scans `s` from the left for an occurrence of `sub`. */
  function Contains(s: string, sub: string): (r: bool)
    ensures r <==> exists i :: OccursAt(s, sub, i)
    decreases |s|
  {
    if |sub| > |s| then
      assert forall i :: !OccursAt(s, sub, i);
      false
    else if s[..|sub|] == sub then
      assert OccursAt(s, sub, 0);
      true
    else
      var rest := Contains(s[1..], sub);
      assert forall i :: OccursAt(s[1..], sub, i) <==> OccursAt(s, sub, i + 1) by {
        forall i ensures OccursAt(s[1..], sub, i) <==> OccursAt(s, sub, i + 1) {
          if 0 <= i && i + |sub| <= |s[1..]| {
            assert s[1..][i..i + |sub|] == s[i + 1..i + 1 + |sub|];
          }
        }
      }
      assert !OccursAt(s, sub, 0);
      assert (exists i :: OccursAt(s, sub, i)) ==> exists i :: OccursAt(s[1..], sub, i) by {
        if exists i :: OccursAt(s, sub, i) {
          var i :| OccursAt(s, sub, i);
          assert OccursAt(s[1..], sub, i - 1);
        }
      }
      rest
  }

  /** strings.Split(s, sep) for a one-character separator: the pieces between
      consecutive separators, always at least one. */
  function Split(s: string, sep: char): (r: seq<string>)
    ensures |r| >= 1
    ensures forall k :: 0 <= k < |r| ==> sep !in r[k]
    decreases |s|
  {
    if |s| == 0 then [""] else Prepend(s[0], Split(s[1..], sep), sep)
  }

  /** The pieces of `[c] + s` from those of `s`: a separator starts a new
      empty piece, any other character joins the first piece. */
  function Prepend(c: char, pieces: seq<string>, sep: char): (r: seq<string>)
    requires |pieces| >= 1 && forall k :: 0 <= k < |pieces| ==> sep !in pieces[k]
    ensures |r| >= 1 && forall k :: 0 <= k < |r| ==> sep !in r[k]
  {
    if c == sep then [""] + pieces else [[c] + pieces[0]] + pieces[1..]
  }

  /** Prepending works on the first of two runs of pieces. */
  lemma PrependAppend(c: char, p: seq<string>, q: seq<string>, sep: char)
    requires |p| >= 1 && forall k :: 0 <= k < |p| ==> sep !in p[k]
    requires |q| >= 1 && forall k :: 0 <= k < |q| ==> sep !in q[k]
    ensures Prepend(c, p + q, sep) == Prepend(c, p, sep) + q
  {
    assert (p + q)[0] == p[0];
    assert (p + q)[1..] == p[1..] + q;
  }

  /** strings.Join(elems, sep) for a one-character separator. */
  function Join(elems: seq<string>, sep: char): string
    decreases |elems|
  {
    if |elems| == 0 then ""
    else if |elems| == 1 then elems[0]
    else elems[0] + [sep] + Join(elems[1..], sep)
  }

  /** Splitting around one separator splits each side independently. */
  lemma {:induction false} SplitAppend(a: string, sep: char, b: string)
    ensures Split(a + [sep] + b, sep) == Split(a, sep) + Split(b, sep)
    decreases |a|
  {
    var s := a + [sep] + b;
    if |a| == 0 {
      assert s == [sep] + b && s[1..] == b;
    } else {
      assert s[0] == a[0] && s[1..] == a[1..] + [sep] + b;
      SplitAppend(a[1..], sep, b);
      PrependAppend(a[0], Split(a[1..], sep), Split(b, sep), sep);
    }
  }

  /** Joining the pieces of a split gives back the original string. */
  lemma {:induction false} JoinSplit(s: string, sep: char)
    ensures Join(Split(s, sep), sep) == s
    decreases |s|
  {
    if |s| > 0 {
      var rest := Split(s[1..], sep);
      JoinSplit(s[1..], sep);
      if s[0] == sep {
        assert s == [sep] + s[1..];
      } else {
        JoinConsFirst(s[0], rest, sep);
        assert s == [s[0]] + s[1..];
      }
    }
  }

  /** Prepending a character to the first element prepends it to the join. */
  lemma {:induction false} JoinConsFirst(c: char, elems: seq<string>, sep: char)
    requires |elems| >= 1
    ensures Join([[c] + elems[0]] + elems[1..], sep) == [c] + Join(elems, sep)
  {
    var e := [[c] + elems[0]] + elems[1..];
    if |elems| > 1 {
      assert e[1..] == elems[1..];
    }
  }

  /** Splitting a join of separator-free pieces gives the pieces back. */
  lemma {:induction false} SplitJoin(elems: seq<string>, sep: char)
    requires |elems| >= 1
    requires forall k :: 0 <= k < |elems| ==> sep !in elems[k]
    ensures Split(Join(elems, sep), sep) == elems
    decreases |elems|
  {
    if |elems| == 1 {
      SplitNoSep(elems[0], sep);
    } else {
      SplitJoin(elems[1..], sep);
      SplitAppend(elems[0], sep, Join(elems[1..], sep));
      SplitNoSep(elems[0], sep);
      assert elems == [elems[0]] + elems[1..];
    }
  }

  /** A string without the separator is a single piece. */
  lemma {:induction false} SplitNoSep(s: string, sep: char)
    requires sep !in s
    ensures Split(s, sep) == [s]
    decreases |s|
  {
    if |s| > 0 {
      SplitNoSep(s[1..], sep);
      assert s == [s[0]] + s[1..];
    }
  }
}
