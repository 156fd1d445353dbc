/**
 * List utilities of app.js: the Fisher–Yates `shuffle`, `parseList` (split on
 * newlines, trim, drop empty lines) and the exclusion filter used by the picker
 * and the turn-order tool.
 */
module ListOps {

  // ---------------------------------------------------------------------------
  // shuffle (app.js:83-90)
  // ---------------------------------------------------------------------------

  /** Random draws for one Fisher–Yates pass over `n` items. `draws[i]` stands for
      `Math.floor(Math.random() * (i + 1))`, so it lies in [0, i]; `draws[0]` is
      never read (the loop stops before index 0). */
  predicate ValidDraws(draws: seq<nat>, n: nat) {
    |draws| == n && forall i :: 0 < i < n ==> draws[i] <= i
  }

  /** Exchange of two positions, as the destructuring assignment does it. */
  function Swap<T>(s: seq<T>, i: nat, j: nat): (r: seq<T>)
    requires i < |s| && j < |s|
    ensures |r| == |s|
  {
    s[i := s[j]][j := s[i]]
  }

  /** After the swap, position `i` holds what was at `j`. */
  lemma SwapPlaces<T>(s: seq<T>, i: nat, j: nat)
    requires i < |s| && j < |s|
    ensures Swap(s, i, j)[i] == s[j]
  {
  }

  /** The swap leaves every other position alone. */
  lemma SwapElsewhere<T>(s: seq<T>, i: nat, j: nat, k: nat)
    requires i < |s| && j < |s| && k < |s| && k != i && k != j
    ensures Swap(s, i, j)[k] == s[k]
  {
  }

  /** The copy after the loop iterations for the indices i, i-1, ..., 1, starting
      from `s`: every iteration swaps position i with position draws[i]. */
  function FisherYates<T>(s: seq<T>, draws: seq<nat>, i: int): (r: seq<T>)
    requires ValidDraws(draws, |s|) && i < |s|
    ensures |r| == |s|
    decreases i
  {
    if i <= 0 then s else FisherYates(Swap(s, i, draws[i]), draws, i - 1)
  }

  /** A swap only rearranges. */
  lemma SwapPermutes<T>(s: seq<T>, i: nat, j: nat)
    requires i < |s| && j < |s|
    ensures multiset(Swap(s, i, j)) == multiset(s)
  {
  }

  /** The shuffle is a permutation of its input, whatever the draws. */
  lemma {:induction false} FisherYatesPermutes<T>(s: seq<T>, draws: seq<nat>, i: int)
    requires ValidDraws(draws, |s|) && i < |s|
    ensures multiset(FisherYates(s, draws, i)) == multiset(s)
    decreases i
  {
    if i > 0 {
      SwapPermutes(s, i, draws[i]);
      FisherYatesPermutes(Swap(s, i, draws[i]), draws, i - 1);
    }
  }

  /** Positions above `i` are never touched by the remaining iterations. */
  lemma {:induction false} FisherYatesKeepsTail<T>(s: seq<T>, draws: seq<nat>, i: int, k: nat)
    requires ValidDraws(draws, |s|) && i < k < |s|
    ensures FisherYates(s, draws, i)[k] == s[k]
    decreases i
  {
    if i > 0 {
      var t := Swap(s, i, draws[i]);
      SwapElsewhere(s, i, draws[i], k);
      FisherYatesKeepsTail(t, draws, i - 1, k);
      assert FisherYates(s, draws, i) == FisherYates(t, draws, i - 1);
    }
  }

  /** Position i receives the element drawn for it and keeps it to the end: the
      last position of the result holds the element the first draw chose. */
  lemma {:induction false} FisherYatesPlacesDraw<T>(s: seq<T>, draws: seq<nat>, i: nat)
    requires ValidDraws(draws, |s|) && 0 < i < |s|
    ensures FisherYates(s, draws, i)[i] == s[draws[i]]
  {
    var t := Swap(s, i, draws[i]);
    SwapPlaces(s, i, draws[i]);
    FisherYatesKeepsTail(t, draws, i - 1, i);
  }

  /** Drawing j == i at every step leaves the order as it was. */
  lemma {:induction false} FisherYatesIdentityDraws<T>(s: seq<T>, draws: seq<nat>, i: int)
    requires ValidDraws(draws, |s|) && i < |s|
    requires forall k :: 0 < k < |s| ==> draws[k] == k
    ensures FisherYates(s, draws, i) == s
    decreases i
  {
    if i > 0 {
      assert draws[i] == i;
      assert Swap(s, i, i) == s;
      FisherYatesIdentityDraws(s, draws, i - 1);
    }
  }

  /** `shuffle`: copies the input into a fresh array and runs the descending
      Fisher–Yates loop on the copy; the caller's sequence is a value and is
      never changed. */
  method Shuffle<T>(items: seq<T>, draws: seq<nat>) returns (r: seq<T>)
    requires ValidDraws(draws, |items|)
    ensures r == FisherYates(items, draws, |items| - 1)
    ensures |r| == |items| && multiset(r) == multiset(items)
  {
    var copy := new T[|items|](k requires 0 <= k < |items| => items[k]);
    assert copy[..] == items;
    var i := copy.Length - 1;
    while i > 0
      invariant -1 <= i < copy.Length
      invariant FisherYates(copy[..], draws, i) == FisherYates(items, draws, |items| - 1)
    {
      ghost var before := copy[..];
      var j := draws[i];
      var t := copy[i];
      copy[i] := copy[j];
      copy[j] := t;
      assert copy[..] == Swap(before, i, j);
      i := i - 1;
    }
    r := copy[..];
    FisherYatesPermutes(items, draws, |items| - 1);
  }

  // ---------------------------------------------------------------------------
  // split / join on one separator character
  // ---------------------------------------------------------------------------

  /** `text.split(sep)` for a one-character separator: always at least one
      piece. */
  function Split(s: string, sep: char): (r: seq<string>)
    ensures |r| >= 1
    decreases |s|
  {
    if |s| == 0 then [""]
    else
      var rest := Split(s[1..], sep);
      if s[0] == sep then [""] + rest
      else [[s[0]] + rest[0]] + rest[1..]
  }

  /** `items.join(sep)`. */
  function Join(items: seq<string>, sep: string): string
    decreases |items|
  {
    if |items| == 0 then ""
    else if |items| == 1 then items[0]
    else items[0] + sep + Join(items[1..], sep)
  }

  /** No piece contains the separator. */
  lemma {:induction false} SplitPieces(s: string, sep: char)
    ensures forall k :: 0 <= k < |Split(s, sep)| ==> sep !in Split(s, sep)[k]
    decreases |s|
  {
    if |s| > 0 {
      SplitPieces(s[1..], sep);
      var rest := Split(s[1..], sep);
      if s[0] != sep {
        assert sep !in [s[0]] + rest[0];
      }
    }
  }

  /** Joining the pieces with the separator gives back the text. */
  lemma {:induction false} JoinSplit(s: string, sep: char)
    ensures Join(Split(s, sep), [sep]) == s
    decreases |s|
  {
    if |s| > 0 {
      var rest := Split(s[1..], sep);
      JoinSplit(s[1..], sep);
      if s[0] == sep {
        assert Split(s, sep) == [""] + rest;
        assert ([""] + rest)[1..] == rest;
      } else {
        var r := Split(s, sep);
        assert r == [[s[0]] + rest[0]] + rest[1..];
        if |rest| == 1 {
          assert r == [[s[0]] + rest[0]];
        } else {
          assert r[1..] == rest[1..];
          assert Join(rest, [sep]) == rest[0] + [sep] + Join(rest[1..], [sep]);
        }
        assert s == [s[0]] + s[1..];
      }
    }
  }

  /** Splitting a join of separator-free pieces gives back the pieces: the join
      is injective on such lists. */
  lemma {:induction false} SplitJoin(items: seq<string>, sep: char)
    requires |items| >= 1
    requires forall k :: 0 <= k < |items| ==> sep !in items[k]
    ensures Split(Join(items, [sep]), sep) == items
    decreases |items|
  {
    if |items| == 1 {
      SplitNoSep(items[0], sep);
    } else {
      SplitJoin(items[1..], sep);
      var tail := Join(items[1..], [sep]);
      SplitAppend(items[0], tail, sep);
      SplitNoSep(items[0], sep);
      assert [items[0]] + items[1..] == items;
    }
  }

  /** A piece without the separator splits into itself. */
  lemma {:induction false} SplitNoSep(s: string, sep: char)
    requires sep !in s
    ensures Split(s, sep) == [s]
    decreases |s|
  {
    if |s| > 0 {
      SplitNoSep(s[1..], sep);
      assert [s[0]] + s[1..] == s;
    }
  }

  /** Concatenation is associative. */
  lemma ConcatAssoc<T>(x: seq<T>, y: seq<T>, z: seq<T>)
    ensures x + (y + z) == (x + y) + z
  {
  }

  /** The head and tail of a concatenation with a non-empty first part. */
  lemma ConsConcat<T>(x: seq<T>, y: seq<T>)
    requires |x| > 0
    ensures (x + y)[0] == x[0] && (x + y)[1..] == x[1..] + y
  {
  }

  /** One step of the split: a leading separator starts a new piece, any
      other character joins the first piece. */
  lemma SplitCons(c: char, t: string, sep: char)
    ensures Split([c] + t, sep) ==
      if c == sep then [""] + Split(t, sep) else [[c] + Split(t, sep)[0]] + Split(t, sep)[1..]
  {
    assert ([c] + t)[1..] == t;
  }

  /** Splitting `a + sep + b` splits `a` and `b` separately. */
  lemma {:induction false} SplitAppend(a: string, b: string, sep: char)
    ensures Split(a + [sep] + b, sep) == Split(a, sep) + Split(b, sep)
    decreases |a|
  {
    if |a| == 0 {
      assert a + [sep] + b == [sep] + b;
      SplitCons(sep, b, sep);
    } else {
      var c, a' := a[0], a[1..];
      assert a == [c] + a';
      assert a + [sep] + b == [c] + (a' + [sep] + b);
      SplitAppend(a', b, sep);
      SplitCons(c, a' + [sep] + b, sep);
      SplitCons(c, a', sep);
      var ra, rb := Split(a', sep), Split(b, sep);
      if c == sep {
        ConcatAssoc([""], ra, rb);
      } else {
        ConsConcat(ra, rb);
        ConcatAssoc([[c] + ra[0]], ra[1..], rb);
      }
    }
  }

  // ---------------------------------------------------------------------------
  // trim
  // ---------------------------------------------------------------------------

  /** ECMAScript WhiteSpace and LineTerminator code points, the characters
      `String.prototype.trim` removes (tab to carriage return, the space
      separators of category Zs, the line and paragraph separators, and the
      byte order mark). */
  predicate IsSpace(c: char) {
    || ('\t' <= c <= '\r') || c == ' ' || c == '\U{00A0}' || c == '\U{1680}'
    || ('\U{2000}' <= c <= '\U{200A}')
    || c == '\U{2028}' || c == '\U{2029}' || c == '\U{202F}' || c == '\U{205F}'
    || c == '\U{3000}' || c == '\U{FEFF}'
  }

  /** Neither end is white space. */
  predicate IsTrimmed(s: string) {
    s == [] || (!IsSpace(s[0]) && !IsSpace(s[|s| - 1]))
  }

  /** Leading white space removed: no longer than `s`, and not starting with
      white space. */
  function TrimStart(s: string): (r: string)
    ensures |r| <= |s|
    ensures r == [] || !IsSpace(r[0])
    decreases |s|
  {
    if |s| > 0 && IsSpace(s[0]) then TrimStart(s[1..]) else s
  }

  /** Trailing white space removed: no longer than `s`, and not ending with
      white space. */
  function TrimEnd(s: string): (r: string)
    ensures |r| <= |s|
    ensures r == [] || !IsSpace(r[|r| - 1])
    decreases |s|
  {
    if |s| > 0 && IsSpace(s[|s| - 1]) then TrimEnd(s[..|s| - 1]) else s
  }

  /** `TrimStart` keeps a suffix of the line. */
  lemma {:induction false} TrimStartSuffix(s: string)
    ensures TrimStart(s) == s[|s| - |TrimStart(s)|..]
    decreases |s|
  {
    if |s| > 0 && IsSpace(s[0]) {
      TrimStartSuffix(s[1..]);
      assert s[1..][|s| - 1 - |TrimStart(s)|..] == s[|s| - |TrimStart(s)|..];
    }
  }

  /** `TrimEnd` keeps a prefix of the line. */
  lemma {:induction false} TrimEndPrefix(s: string)
    ensures TrimEnd(s) == s[..|TrimEnd(s)|]
    decreases |s|
  {
    if |s| > 0 && IsSpace(s[|s| - 1]) {
      TrimEndPrefix(s[..|s| - 1]);
      assert s[..|s| - 1][..|TrimEnd(s)|] == s[..|TrimEnd(s)|];
    }
  }

  /** Everything `TrimStart` cuts off is white space. */
  lemma {:induction false} TrimStartCutsSpace(s: string, k: nat)
    requires k < |s| - |TrimStart(s)|
    ensures IsSpace(s[k])
    decreases |s|
  {
    if k > 0 {
      TrimStartCutsSpace(s[1..], k - 1);
    }
  }

  /** Everything `TrimEnd` cuts off is white space. */
  lemma {:induction false} TrimEndCutsSpace(s: string, k: nat)
    requires |TrimEnd(s)| <= k < |s|
    ensures IsSpace(s[k])
    decreases |s|
  {
    if k < |s| - 1 {
      TrimEndCutsSpace(s[..|s| - 1], k);
    }
  }

  /** Number of white-space characters `trim` cuts from the front. */
  function LeadingSpaces(s: string): (n: nat)
    ensures n <= |s|
  {
    |s| - |TrimStart(s)|
  }

  /** `line.trim()`: white space cut from both ends, so that neither end is
      white space. */
  function Trim(s: string): (r: string)
    ensures IsTrimmed(r)
    ensures |r| <= |s|
  {
    var a := TrimStart(s);
    var r := TrimEnd(a);
    if r == [] then r
    else TrimEndPrefix(a); assert r[0] == a[0]; r
  }

  /** The trimmed line is the slice of the line after its leading white space. */
  lemma TrimSlice(s: string)
    ensures LeadingSpaces(s) + |Trim(s)| <= |s|
    ensures Trim(s) == s[LeadingSpaces(s)..LeadingSpaces(s) + |Trim(s)|]
  {
    var a := TrimStart(s);
    TrimStartSuffix(s);
    TrimEndPrefix(a);
    assert Trim(s) == a[..|Trim(s)|];
  }

  /** A line trims to nothing exactly when it is all white space. */
  lemma TrimBlank(s: string)
    ensures Trim(s) == [] <==> forall k :: 0 <= k < |s| ==> IsSpace(s[k])
  {
    var a := TrimStart(s);
    TrimSlice(s);
    if Trim(s) == [] {
      TrimStartSuffix(s);
      forall k | 0 <= k < |s|
        ensures IsSpace(s[k])
      {
        if k < |s| - |a| {
          TrimStartCutsSpace(s, k);
        } else {
          TrimEndCutsSpace(a, k - (|s| - |a|));
        }
      }
    } else {
      assert !IsSpace(s[LeadingSpaces(s)]);
    }
  }

  /** The characters of a trimmed line all come from the line. */
  lemma TrimKeepsAbsent(s: string, c: char)
    requires c !in s
    ensures c !in Trim(s)
  {
    TrimSlice(s);
  }

  /** A line with no white space at either end is left as it is. */
  lemma TrimOfTrimmed(s: string)
    requires IsTrimmed(s)
    ensures Trim(s) == s
  {
    assert TrimStart(s) == s;
    assert TrimEnd(s) == s;
  }

  /** Trimming twice is trimming once. */
  lemma TrimIdempotent(s: string)
    ensures Trim(Trim(s)) == Trim(s)
  {
    TrimOfTrimmed(Trim(s));
  }

  // ---------------------------------------------------------------------------
  // parseList (app.js:92-96)
  // ---------------------------------------------------------------------------

  /** `lines.map(trim).filter(nonEmpty)`. */
  function ParseLines(lines: seq<string>): (r: seq<string>)
    ensures |r| <= |lines|
    ensures forall k :: 0 <= k < |r| ==> r[k] != "" && IsTrimmed(r[k])
    decreases |lines|
  {
    if |lines| == 0 then []
    else
      var t := Trim(lines[0]);
      if t == "" then ParseLines(lines[1..]) else [t] + ParseLines(lines[1..])
  }

  /** Every parsed entry is the trimmed form of one of the lines. */
  lemma {:induction false} ParseLinesSound(lines: seq<string>, x: string)
    requires x in ParseLines(lines)
    ensures exists i :: 0 <= i < |lines| && x == Trim(lines[i])
    decreases |lines|
  {
    if Trim(lines[0]) != x {
      ParseLinesSound(lines[1..], x);
      var i :| 0 <= i < |lines[1..]| && x == Trim(lines[1..][i]);
      assert x == Trim(lines[i + 1]);
    }
  }

  /** Every line that is not blank shows up, trimmed, among the parsed entries. */
  lemma {:induction false} ParseLinesComplete(lines: seq<string>, i: nat)
    requires i < |lines| && Trim(lines[i]) != ""
    ensures Trim(lines[i]) in ParseLines(lines)
    decreases |lines|
  {
    if i > 0 {
      ParseLinesComplete(lines[1..], i - 1);
    }
  }

  /** `parseList(text)`: the non-empty trimmed lines of `text`, in order, with
      duplicates kept. */
  function ParseList(text: string): (r: seq<string>)
    ensures forall k :: 0 <= k < |r| ==> r[k] != "" && IsTrimmed(r[k]) && '\n' !in r[k]
  {
    SplitPieces(text, '\n');
    ParseLinesNoNewline(Split(text, '\n'));
    ParseLines(Split(text, '\n'))
  }

  /** Lines cut at newlines still have none after trimming. */
  lemma {:induction false} ParseLinesNoNewline(lines: seq<string>)
    requires forall k :: 0 <= k < |lines| ==> '\n' !in lines[k]
    ensures forall k :: 0 <= k < |ParseLines(lines)| ==> '\n' !in ParseLines(lines)[k]
    decreases |lines|
  {
    if |lines| > 0 {
      TrimKeepsAbsent(lines[0], '\n');
      ParseLinesNoNewline(lines[1..]);
    }
  }

  /** Every entry of `parseList(text)` is the trimmed form of a line of `text`. */
  lemma ParseListSound(text: string, x: string)
    requires x in ParseList(text)
    ensures exists i :: 0 <= i < |Split(text, '\n')| && x == Trim(Split(text, '\n')[i])
  {
    ParseLinesSound(Split(text, '\n'), x);
  }

  /** Every non-blank line of `text` gives an entry of `parseList(text)`. */
  lemma ParseListComplete(text: string, i: nat)
    requires i < |Split(text, '\n')| && Trim(Split(text, '\n')[i]) != ""
    ensures Trim(Split(text, '\n')[i]) in ParseList(text)
  {
    ParseLinesComplete(Split(text, '\n'), i);
  }

  /** Parsing two blocks of lines joined by a newline parses each block in turn:
      the order of the lines is kept and repeated names stay repeated. */
  lemma ParseListAppend(a: string, b: string)
    ensures ParseList(a + "\n" + b) == ParseList(a) + ParseList(b)
  {
    SplitAppend(a, b, '\n');
    ParseLinesAppend(Split(a, '\n'), Split(b, '\n'));
  }

  lemma {:induction false} ParseLinesAppend(xs: seq<string>, ys: seq<string>)
    ensures ParseLines(xs + ys) == ParseLines(xs) + ParseLines(ys)
    decreases |xs|
  {
    if |xs| == 0 {
      assert xs + ys == ys;
    } else {
      assert (xs + ys)[0] == xs[0];
      assert (xs + ys)[1..] == xs[1..] + ys;
      ParseLinesAppend(xs[1..], ys);
    }
  }

  /** A single line parses to its trimmed form, or to nothing when it is blank. */
  lemma ParseListOneLine(line: string)
    requires '\n' !in line
    ensures ParseList(line) == if Trim(line) == "" then [] else [Trim(line)]
  {
    SplitNoSep(line, '\n');
    assert Split(line, '\n')[1..] == [];
  }

  // ---------------------------------------------------------------------------
  // exclusion filter: `list.filter((name) => !excluded.has(name))`
  // ---------------------------------------------------------------------------

  /** The elements of `xs` that are not excluded, in their order: every kept
      element occurs as often as in `xs`, every excluded one not at all. */
  function Without(xs: seq<string>, excluded: set<string>): (r: seq<string>)
    ensures |r| <= |xs|
    ensures forall x :: multiset(r)[x] == if x in excluded then 0 else multiset(xs)[x]
    decreases |xs|
  {
    if |xs| == 0 then []
    else
      var rest := Without(xs[1..], excluded);
      assert xs == [xs[0]] + xs[1..];
      if xs[0] in excluded then rest else [xs[0]] + rest
  }

  /** The filter keeps the order: filtering a concatenation filters each part. */
  lemma {:induction false} WithoutAppend(xs: seq<string>, ys: seq<string>, excluded: set<string>)
    ensures Without(xs + ys, excluded) == Without(xs, excluded) + Without(ys, excluded)
    decreases |xs|
  {
    if |xs| == 0 {
      assert xs + ys == ys;
    } else {
      assert (xs + ys)[0] == xs[0];
      assert (xs + ys)[1..] == xs[1..] + ys;
      WithoutAppend(xs[1..], ys, excluded);
    }
  }

  /** With nothing excluded the list comes back unchanged. */
  lemma {:induction false} WithoutNothing(xs: seq<string>)
    ensures Without(xs, {}) == xs
    decreases |xs|
  {
    if |xs| > 0 {
      WithoutNothing(xs[1..]);
      assert xs == [xs[0]] + xs[1..];
    }
  }
}
