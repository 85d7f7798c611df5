/**
 * The string operations the application leans on, restricted to what it uses:
 * ASCII `toLowerCase`/`toUpperCase`, `trim`, `startsWith`, `includes`,
 * `split` on single separator characters, and `join`.
 */
module Text {

  /** ASCII upper case to lower case; every other character is unchanged. */
  function LowerChar(c: char): char {
    if 'A' <= c <= 'Z' then (c as int + 32) as char else c
  }

  /** ASCII lower case to upper case. */
  function UpperChar(c: char): char {
    if 'a' <= c <= 'z' then (c as int - 32) as char else c
  }

  /** `s.toLowerCase()` on ASCII text. */
  function Lower(s: string): string {
    seq(|s|, i requires 0 <= i < |s| => LowerChar(s[i]))
  }

  /** Lower-casing twice is lower-casing once. */
  lemma LowerIdempotent(s: string)
    ensures Lower(Lower(s)) == Lower(s)
  {
  }

  /**
   * The characters `trim` removes: the ASCII blanks and line ends, the
   * no-break space, the byte order mark, the line and paragraph separators,
   * and the other Unicode space separators.
   */
  predicate IsSpace(c: char) {
    c == ' ' || c == '\t' || c == '\n' || c == '\r' || c as int == 0x0B || c as int == 0x0C ||
    c as int == 0xA0 || c as int == 0x1680 || 0x2000 <= c as int <= 0x200A ||
    c as int == 0x2028 || c as int == 0x2029 || c as int == 0x202F || c as int == 0x205F ||
    c as int == 0x3000 || c as int == 0xFEFF
  }

  function TrimStart(s: string): (r: string)
    ensures r == [] || !IsSpace(r[0])
    ensures |r| <= |s| && r == s[|s| - |r|..]
  {
    if s != [] && IsSpace(s[0]) then TrimStart(s[1..]) else s
  }

  function TrimEnd(s: string): (r: string)
    ensures r == [] || !IsSpace(r[|r| - 1])
    ensures |r| <= |s| && r == s[..|r|]
  {
    if s != [] && IsSpace(s[|s| - 1]) then TrimEnd(s[..|s| - 1]) else s
  }

  /** `s.trim()`: no white space is left at either end. */
  function Trim(s: string): (r: string)
    ensures Trimmed(r)
  {
    var t := TrimStart(s);
    var r := TrimEnd(t);
    assert r != [] ==> r[0] == t[0];
    r
  }

  /** No white space at either end. */
  predicate Trimmed(x: string) {
    x == [] || (!IsSpace(x[0]) && !IsSpace(x[|x| - 1]))
  }

  /** A leading blank, as `join(', ')` leaves before every later item, does not survive `trim`. */
  lemma TrimLeadingBlank(x: string)
    ensures Trim([' '] + x) == Trim(x)
  {
    assert ([' '] + x)[1..] == x;
  }

  predicate StartsWith(s: string, prefix: string) {
    |prefix| <= |s| && s[..|prefix|] == prefix
  }

  /** `s.includes(t)`: `t` occurs in `s` at some position. */
  predicate Contains(s: string, t: string)
    decreases |s|
  {
    StartsWith(s, t) || (s != [] && Contains(s[1..], t))
  }

  /** No character of `p` is one of `seps`. */
  predicate NoSep(p: string, seps: set<char>) {
    forall i :: 0 <= i < |p| ==> p[i] !in seps
  }

  /**
   * `s.split(c)` for separators drawn from `seps`: consecutive separators give
   * empty pieces, and there is always at least one piece.
   */
  function Split(s: string, seps: set<char>): (r: seq<string>)
    ensures |r| >= 1
    ensures forall k :: 0 <= k < |r| ==> NoSep(r[k], seps)
    decreases |s|
  {
    if s == [] then [""]
    else
      var rest := Split(s[1..], seps);
      if s[0] in seps then [""] + rest
      else
        assert NoSep(rest[0], seps);
        [[s[0]] + rest[0]] + rest[1..]
  }

  /** `xs.join(sep)`. */
  function Join(xs: seq<string>, sep: string): string
    decreases |xs|
  {
    if |xs| == 0 then "" else if |xs| == 1 then xs[0] else xs[0] + sep + Join(xs[1..], sep)
  }

  /** A piece free of separators is split into itself. */
  lemma {:induction false} SplitNoSep(w: string, seps: set<char>)
    requires NoSep(w, seps)
    ensures Split(w, seps) == [w]
    decreases |w|
  {
    if w != [] {
      SplitNoSep(w[1..], seps);
      assert [w[0]] + w[1..] == w;
    }
  }

  /** A separator-free word followed by a separator is the first piece. */
  lemma {:induction false} SplitAfterWord(w: string, c: char, t: string, seps: set<char>)
    requires NoSep(w, seps) && c in seps
    ensures Split(w + [c] + t, seps) == [w] + Split(t, seps)
    decreases |w|
  {
    if w == [] {
      assert w + [c] + t == [c] + t;
      assert ([c] + t)[1..] == t;
    } else {
      var s := w + [c] + t;
      assert s[1..] == w[1..] + [c] + t;
      SplitAfterWord(w[1..], c, t, seps);
      assert [w[0]] + w[1..] == w;
    }
  }

  /** The first piece of a split is the text up to the first separator (or the whole text). */
  lemma {:induction false} SplitFirstPiece(s: string, seps: set<char>)
    ensures StartsWith(s, Split(s, seps)[0])
    ensures |Split(s, seps)[0]| == |s| || s[|Split(s, seps)[0]|] in seps
    decreases |s|
  {
    if s != [] && s[0] !in seps {
      SplitFirstPiece(s[1..], seps);
      var p := Split(s[1..], seps)[0];
      assert Split(s, seps)[0] == [s[0]] + p;
      assert s[..|p| + 1] == [s[0]] + s[1..][..|p|];
    }
  }

  /** The separators of `split(/[,\n]+/)`. */
  const ListSeps: set<char> := {',', '\n'}

  /** `.map(s => s.trim()).filter(Boolean)`: trim every piece and drop the empty ones. */
  function Clean(ps: seq<string>): (r: seq<string>)
    ensures |r| <= |ps|
    ensures forall k :: 0 <= k < |r| ==> r[k] != [] && Trimmed(r[k])
    decreases |ps|
  {
    if ps == [] then []
    else
      var t := Trim(ps[0]);
      if t == [] then Clean(ps[1..]) else [t] + Clean(ps[1..])
  }

  /**
   * `text.split(/[,\n]+/).map(s => s.trim()).filter(Boolean)`, the way skills and
   * requirements are read from a text box: every entry is non-empty, trimmed and
   * free of commas and newlines.
   */
  function Tokens(text: string): (r: seq<string>)
    ensures forall k :: 0 <= k < |r| ==> r[k] != [] && Trimmed(r[k])
    ensures forall k :: 0 <= k < |r| ==> NoSep(r[k], ListSeps)
  {
    var ps := Split(text, ListSeps);
    CleanKeepsNoSep(ps);
    Clean(ps)
  }

  /**
   * What `Tokens` reads from a text: a separator cuts the text into two parts
   * read independently, and a part without separators gives its trimmed self,
   * unless that is empty.
   */
  lemma TokensAtSep(a: string, c: char, b: string)
    requires c in ListSeps
    ensures Tokens(a + [c] + b) == Tokens(a) + Tokens(b)
  {
    SplitAtSep(a, c, b, ListSeps);
    CleanAppend(Split(a, ListSeps), Split(b, ListSeps));
  }

  lemma TokensOfPiece(t: string)
    requires NoSep(t, ListSeps)
    ensures Tokens(t) == if Trim(t) == "" then [] else [Trim(t)]
  {
    SplitNoSep(t, ListSeps);
    assert [t][0] == t && [t][1..] == [];
  }

  /** Splitting at a separator: the pieces before it, then the pieces after it. */
  lemma {:induction false} SplitAtSep(a: string, c: char, b: string, seps: set<char>)
    requires c in seps
    ensures Split(a + [c] + b, seps) == Split(a, seps) + Split(b, seps)
    decreases |a|
  {
    var s := a + [c] + b;
    if a == [] {
      assert s == [c] + b && s[1..] == b;
    } else {
      assert s[0] == a[0] && s[1..] == a[1..] + [c] + b;
      SplitAtSep(a[1..], c, b, seps);
      var p := Split(a[1..], seps);
      var r := p + Split(b, seps);
      if a[0] !in seps {
        assert r[0] == p[0] && r[1..] == p[1..] + Split(b, seps);
      }
    }
  }

  /** `Clean` works piece by piece. */
  lemma {:induction false} CleanAppend(p: seq<string>, q: seq<string>)
    ensures Clean(p + q) == Clean(p) + Clean(q)
    decreases |p|
  {
    if p == [] {
      EmptyAppend(q);
    } else {
      ConsAppend(p, q);
      CleanAppend(p[1..], q);
      if Trim(p[0]) != [] {
        Reassoc([Trim(p[0])], Clean(p[1..]), Clean(q));
      }
    }
  }

  lemma EmptyAppend<T>(q: seq<T>)
    ensures [] + q == q
  {
  }

  lemma ConsAppend<T>(p: seq<T>, q: seq<T>)
    requires p != []
    ensures (p + q)[0] == p[0] && (p + q)[1..] == p[1..] + q
  {
  }

  lemma Reassoc<T>(a: seq<T>, b: seq<T>, c: seq<T>)
    ensures a + (b + c) == (a + b) + c
  {
  }

  lemma {:induction false} CleanKeepsNoSep(ps: seq<string>)
    requires forall k :: 0 <= k < |ps| ==> NoSep(ps[k], ListSeps)
    ensures forall k :: 0 <= k < |Clean(ps)| ==> NoSep(Clean(ps)[k], ListSeps)
    decreases |ps|
  {
    if ps != [] {
      var rest := Clean(ps[1..]);
      CleanKeepsNoSep(ps[1..]);
      var t := Trim(ps[0]);
      TrimKeepsNoSep(ps[0]);
      if t != [] {
        var r := Clean(ps);
        assert r == [t] + rest;
        forall k | 0 <= k < |r| ensures NoSep(r[k], ListSeps) {
          if k > 0 {
            assert r[k] == rest[k - 1];
          }
        }
      }
    }
  }

  /** Trimming adds no separator. */
  lemma TrimKeepsNoSep(s: string)
    requires NoSep(s, ListSeps)
    ensures NoSep(Trim(s), ListSeps)
  {
    var t := TrimStart(s);
    NoSepSlice(s, |s| - |t|, |s|, ListSeps);
    assert t == s[|s| - |t|..|s|];
    var r := TrimEnd(t);
    NoSepSlice(t, 0, |r|, ListSeps);
    assert r == t[0..|r|];
  }

  /** A part of a text free of separators is free of them too. */
  lemma NoSepSlice(s: string, i: int, j: int, seps: set<char>)
    requires NoSep(s, seps) && 0 <= i <= j <= |s|
    ensures NoSep(s[i..j], seps)
  {
    forall k | 0 <= k < j - i ensures s[i..j][k] !in seps {
      assert s[i..j][k] == s[i + k];
    }
  }

  /** Trimming a text that has no white space at either end changes nothing. */
  lemma TrimOfTrimmed(s: string)
    requires Trimmed(s)
    ensures Trim(s) == s
  {
  }

  /** An entry that survives a split-and-clean unchanged. */
  predicate CleanItem(x: string) {
    x != [] && Trim(x) == x && NoSep(x, ListSeps)
  }

  /**
   * Round trip of the requirements box: joining with ", " and reading back
   * returns the list, provided every entry is non-empty, already trimmed and
   * free of commas and newlines.
   */
  lemma {:induction false} TokensOfJoin(xs: seq<string>)
    requires forall k :: 0 <= k < |xs| ==> CleanItem(xs[k])
    ensures Tokens(Join(xs, ", ")) == xs
    decreases |xs|
  {
    if xs != [] {
      HeadTail(xs);
      TokensOfJoin(xs[1..]);
      TokensOfJoinCons(xs[0], xs[1..]);
    }
  }

  lemma HeadTail<T>(xs: seq<T>)
    requires xs != []
    ensures xs == [xs[0]] + xs[1..]
  {
  }

  lemma TokensOfJoinCons(x: string, rest: seq<string>)
    requires CleanItem(x)
    requires Tokens(Join(rest, ", ")) == rest
    ensures Tokens(Join([x] + rest, ", ")) == [x] + rest
  {
    if rest == [] {
      SingletonJoin(x);
      TokensOfItem(x);
    } else {
      var tail := Join(rest, ", ");
      JoinCons(x, rest);
      SplitAfterWord(x, ',', [' '] + tail, ListSeps);
      CleanCons(x, Split([' '] + tail, ListSeps));
      BlankThenText(tail);
    }
  }

  lemma SingletonJoin(x: string)
    ensures [x] + [] == [x] && Join([x], ", ") == x
  {
  }

  /** Unfolding `join(', ')` once, with the comma and the blank apart. */
  lemma JoinCons(x: string, rest: seq<string>)
    requires |rest| >= 1
    ensures Join([x] + rest, ", ") == x + [','] + ([' '] + Join(rest, ", "))
  {
    var xs := [x] + rest;
    assert xs[0] == x && xs[1..] == rest;
    JoinUnfold(xs, ", ");
    CommaBlank(x, Join(rest, ", "));
  }

  lemma JoinUnfold(xs: seq<string>, sep: string)
    requires |xs| >= 2
    ensures Join(xs, sep) == xs[0] + sep + Join(xs[1..], sep)
  {
  }

  lemma CommaBlank(a: string, t: string)
    ensures a + ", " + t == a + [','] + ([' '] + t)
  {
    var c := a + [','];
    assert a + ", " == c + [' '];
  }

  lemma TokensOfItem(x: string)
    requires CleanItem(x)
    ensures Tokens(x) == [x]
  {
    SplitNoSep(x, ListSeps);
    assert Clean([x]) == [x] + Clean([]) by { CleanCons(x, []); }
  }

  /** Entries that are already clean pass through `Clean` unchanged. */
  lemma {:induction false} CleanOfCleanItems(xs: seq<string>)
    requires forall k :: 0 <= k < |xs| ==> CleanItem(xs[k])
    ensures Clean(xs) == xs
    decreases |xs|
  {
    if xs != [] {
      var tail := xs[1..];
      assert forall k :: 0 <= k < |tail| ==> tail[k] == xs[k + 1];
      CleanOfCleanItems(tail);
      assert Trim(xs[0]) == xs[0];
      assert Clean(xs) == [xs[0]] + Clean(tail);
      HeadTail(xs);
    }
  }

  lemma CleanCons(x: string, ps: seq<string>)
    requires CleanItem(x)
    ensures Clean([x] + ps) == [x] + Clean(ps)
  {
    assert ([x] + ps)[0] == x && ([x] + ps)[1..] == ps;
  }

  /** A blank in front of the text changes nothing that `Tokens` returns. */
  lemma BlankThenText(t: string)
    ensures Clean(Split([' '] + t, ListSeps)) == Clean(Split(t, ListSeps))
  {
    var rest := Split(t, ListSeps);
    assert ([' '] + t)[1..] == t;
    var ps := Split([' '] + t, ListSeps);
    assert ps == [[' '] + rest[0]] + rest[1..];
    TrimLeadingBlank(rest[0]);
    assert ps[1..] == rest[1..];
  }
}
