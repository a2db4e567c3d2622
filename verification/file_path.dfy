/** Go's path/filepath on a Unix host: Clean, Split and Join, which the
    dataset client uses to name datasets and to address their parents. */
module FilePath {
  import opened GoStrings

  /** One step of lexical cleaning: skip empty and "." elements, let ".."
      cancel the last kept element, drop ".." at the root of an absolute path. */
  function Step(kept: seq<string>, e: string, rooted: bool): seq<string>
  {
    if e == "" || e == "." then kept
    else if e == ".." then
      if |kept| > 0 && kept[|kept| - 1] != ".." then kept[..|kept| - 1]
      else if rooted then kept
      else kept + [".."]
    else kept + [e]
  }

  /** The path elements left after cleaning `elems` from left to right. */
  function Normalize(elems: seq<string>, rooted: bool): seq<string>
    decreases |elems|
  {
    if |elems| == 0 then []
    else Step(Normalize(elems[..|elems| - 1], rooted), elems[|elems| - 1], rooted)
  }

  /** filepath.Clean */
  function Clean(p: string): string
  {
    if p == "" then "."
    else
      var rooted := p[0] == '/';
      var body := Join(Normalize(Split(p, '/'), rooted), '/');
      if rooted then "/" + body
      else if body == "" then "."
      else body
  }

  /** Position of the last '/' in `p`, or -1 when there is none. */
  function LastSlash(p: string): (i: int)
    ensures -1 <= i < |p|
    ensures i >= 0 ==> p[i] == '/'
    ensures forall j :: i < j < |p| ==> p[j] != '/'
    decreases |p|
  {
    if |p| == 0 then -1
    else if p[|p| - 1] == '/' then |p| - 1
    else LastSlash(p[..|p| - 1])
  }

  /** filepath.Split: everything up to and including the last separator, and
      the rest. */
  function SplitPath(p: string): (r: (string, string))
    ensures r.0 + r.1 == p
    ensures '/' !in r.1
    ensures r.0 == "" || r.0[|r.0| - 1] == '/'
  {
    var i := LastSlash(p);
    AfterLastSlash(p);
    assert p[..i + 1] + p[i + 1..] == p;
    assert i >= 0 ==> p[..i + 1][i] == p[i];
    (p[..i + 1], p[i + 1..])
  }

  /** Nothing after the last '/' is a '/'. */
  lemma AfterLastSlash(p: string)
    ensures '/' !in p[LastSlash(p) + 1..]
  {
    var i := LastSlash(p);
    var file := p[i + 1..];
    forall k | 0 <= k < |file| ensures file[k] != '/' {
      assert file[k] == p[i + 1 + k];
    }
  }

  /** filepath.Join of two elements: empty leading elements are skipped and
      the joined path is cleaned; two empty elements give "". */
  function JoinPath(a: string, b: string): string
  {
    if a != "" then Clean(a + "/" + b)
    else if b != "" then Clean(b)
    else ""
  }

  /** An empty element anywhere in the list changes nothing after cleaning. */
  lemma {:induction false} NormalizeSkipsEmpty(a: seq<string>, b: seq<string>, rooted: bool)
    ensures Normalize(a + [""] + b, rooted) == Normalize(a + b, rooted)
    decreases |b|
  {
    if |b| == 0 {
      assert a + [""] + b == a + [""];
      assert (a + [""])[..|a|] == a;
      assert a + b == a;
    } else {
      var b' := b[..|b| - 1];
      var x := b[|b| - 1];
      NormalizeSkipsEmpty(a, b', rooted);
      assert (a + [""] + b)[..|a + [""] + b| - 1] == a + [""] + b';
      assert (a + b)[..|a + b| - 1] == a + b';
    }
  }

  /** A doubled separator cleans away: `d + "//" + f` cleans like `d + "/" + f`. */
  lemma DoubleSlashCleans(d: string, f: string)
    ensures Clean(d + "/" + "/" + f) == Clean(d + "/" + f)
  {
    var p := d + "/" + f;
    var q := d + "/" + "/" + f;
    assert q == d + "/" + ("/" + f);
    SplitAppend(d, '/', "/" + f);
    assert "/" + f == "" + "/" + f;
    SplitAppend("", '/', f);
    SplitAppend(d, '/', f);
    var A := Split(d, '/');
    var B := Split(f, '/');
    assert Split(q, '/') == A + [""] + B;
    assert Split(p, '/') == A + B;
    NormalizeSkipsEmpty(A, B, p[0] == '/');
    assert q[0] == p[0];
  }

  /** Splitting a path and joining the halves again yields the cleaned path;
      the empty path stays empty. */
  lemma JoinSplitPath(p: string)
    ensures JoinPath(SplitPath(p).0, SplitPath(p).1) == (if p == "" then "" else Clean(p))
  {
    var (dir, file) := SplitPath(p);
    if dir != "" {
      var d := dir[..|dir| - 1];
      assert dir == d + "/";
      assert p == d + "/" + file;
      assert dir + "/" + file == d + "/" + "/" + file;
      DoubleSlashCleans(d, file);
    }
  }

  /** A plain path: one or more '/'-separated names, none empty, "." or "..". */
  predicate IsPlain(p: string)
  {
    forall e :: e in Split(p, '/') ==> e != "" && e != "." && e != ".."
  }

  /** Cleaning keeps plain elements as they are. */
  lemma {:induction false} NormalizePlain(elems: seq<string>, rooted: bool)
    requires forall e :: e in elems ==> e != "" && e != "." && e != ".."
    ensures Normalize(elems, rooted) == elems
    decreases |elems|
  {
    if |elems| > 0 {
      var init := elems[..|elems| - 1];
      assert forall e :: e in init ==> e in elems;
      assert elems[|elems| - 1] in elems;
      NormalizePlain(init, rooted);
      assert elems == init + [elems[|elems| - 1]];
    }
  }

  /** A plain path is already clean. */
  lemma PlainIsClean(p: string)
    requires IsPlain(p)
    ensures p != "" && p[0] != '/'
    ensures Clean(p) == p
  {
    var elems := Split(p, '/');
    assert elems[0] in elems;
    NormalizePlain(elems, p[0] == '/');
    JoinSplit(p, '/');
  }

  /** Two plain paths joined by a separator form a plain path. */
  lemma PlainConcat(a: string, b: string)
    requires IsPlain(a) && IsPlain(b)
    ensures IsPlain(a + "/" + b)
  {
    SplitAppend(a, '/', b);
  }

  /** Splitting a plain path and joining it again gives the same path. */
  lemma PlainSplitJoin(p: string)
    requires IsPlain(p)
    ensures JoinPath(SplitPath(p).0, SplitPath(p).1) == p
  {
    JoinSplitPath(p);
    PlainIsClean(p);
  }

  /** Joining two plain paths is concatenation around a separator. */
  lemma PlainJoin(a: string, b: string)
    requires IsPlain(a) && IsPlain(b)
    ensures JoinPath(a, b) == a + "/" + b
  {
    PlainIsClean(a);
    PlainConcat(a, b);
    PlainIsClean(a + "/" + b);
  }
}
