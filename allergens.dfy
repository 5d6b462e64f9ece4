/** The allergen field of the item form: the text typed by the user is split at every
    comma and each piece is trimmed (`value.split(',').map(a => a.trim())`), and the
    stored list is shown back in the field joined with ", ". */
module Allergens {

  /** JavaScript's `String.prototype.trim` whitespace: the WhiteSpace characters
      (tab, vertical tab, form feed, space, no-break space, the byte order mark and
      the other space separators of Unicode) and the LineTerminator characters. */
  predicate IsSpace(c: char) {
    || c == '\t' || c == '\n' || c == '\U{000B}' || c == '\U{000C}' || c == '\r'
    || c == ' ' || c == '\U{00A0}' || c == '\U{1680}'
    || ('\U{2000}' <= c <= '\U{200A}')
    || c == '\U{2028}' || c == '\U{2029}' || c == '\U{202F}' || c == '\U{205F}'
    || c == '\U{3000}' || c == '\U{FEFF}'
  }

  /** Neither the first nor the last character is whitespace. */
  predicate IsTrimmed(s: string) {
    s == [] || (!IsSpace(s[0]) && !IsSpace(s[|s| - 1]))
  }

  /** `s` with its leading whitespace removed: no longer than `s` and not starting
      with whitespace (TrimStartDrops: a suffix of `s` after only whitespace). */
  function TrimStart(s: string): (r: string)
    ensures |r| <= |s|
    ensures r == [] || !IsSpace(r[0])
    decreases |s|
  {
    if |s| > 0 && IsSpace(s[0]) then TrimStart(s[1..]) else s
  }

  /** `s` with its trailing whitespace removed: no longer than `s` and not ending
      with whitespace (TrimEndDrops: a prefix of `s` before only whitespace). */
  function TrimEnd(s: string): (r: string)
    ensures |r| <= |s|
    ensures r == [] || !IsSpace(r[|r| - 1])
    decreases |s|
  {
    if |s| > 0 && IsSpace(s[|s| - 1]) then TrimEnd(s[..|s| - 1]) else s
  }

  /** TrimStart drops a prefix made only of whitespace. */
  lemma {:induction false} TrimStartDrops(s: string)
    ensures TrimStart(s) == s[|s| - |TrimStart(s)|..]
    ensures forall i :: 0 <= i < |s| - |TrimStart(s)| ==> IsSpace(s[i])
    decreases |s|
  {
    if |s| > 0 && IsSpace(s[0]) {
      TrimStartDrops(s[1..]);
      assert forall i :: 1 <= i < |s| ==> s[i] == s[1..][i - 1];
      assert s[1..][|s| - 1 - |TrimStart(s)|..] == s[|s| - |TrimStart(s)|..];
    }
  }

  /** TrimEnd drops a suffix made only of whitespace. */
  lemma {:induction false} TrimEndDrops(s: string)
    ensures TrimEnd(s) == s[..|TrimEnd(s)|]
    ensures forall i :: |TrimEnd(s)| <= i < |s| ==> IsSpace(s[i])
    decreases |s|
  {
    if |s| > 0 && IsSpace(s[|s| - 1]) {
      TrimEndDrops(s[..|s| - 1]);
      assert forall i :: 0 <= i < |s| - 1 ==> s[i] == s[..|s| - 1][i];
      assert s[..|s| - 1][..|TrimEnd(s)|] == s[..|TrimEnd(s)|];
    }
  }

  /** `s.trim()`: a trimmed piece of `s`. */
  function Trim(s: string): (r: string)
    ensures IsTrimmed(r)
    ensures |r| <= |s|
  {
    var t := TrimStart(s);
    var r := TrimEnd(t);
    assert r != [] ==> r[0] == t[0] by {
      TrimEndDrops(t);
    }
    r
  }

  /** `s.trim()` is the slice of `s` between its leading and its trailing whitespace. */
  lemma TrimDrops(s: string) returns (p: int, q: int)
    ensures 0 <= p <= q <= |s| && Trim(s) == s[p..q]
    ensures forall i :: 0 <= i < p || q <= i < |s| ==> IsSpace(s[i])
  {
    var t := TrimStart(s);
    TrimStartDrops(s);
    TrimEndDrops(t);
    p := |s| - |t|;
    q := p + |TrimEnd(t)|;
    assert forall i :: 0 <= i < |t| ==> t[i] == s[p + i];
  }

  /** Trimming brings in no character that was not there. */
  lemma TrimAddsNothing(s: string, c: char)
    requires c !in s
    ensures c !in Trim(s)
  {
    var t := TrimStart(s);
    TrimStartDrops(s);
    assert c !in t by {
      forall i | 0 <= i < |t| ensures t[i] != c {
        assert t[i] == s[|s| - |t| + i];
      }
    }
    var r := TrimEnd(t);
    TrimEndDrops(t);
    forall i | 0 <= i < |r| ensures r[i] != c {
      assert r[i] == t[i];
    }
  }

  /** A string with no whitespace at either end is its own trim. */
  lemma TrimOfTrimmed(s: string)
    requires IsTrimmed(s)
    ensures Trim(s) == s
  {
  }

  /** A leading whitespace character makes no difference to the trimmed text. */
  lemma TrimIgnoresLeadingSpace(c: char, s: string)
    requires IsSpace(c)
    ensures Trim([c] + s) == Trim(s)
  {
    assert ([c] + s)[1..] == s;
  }

  /** Number of occurrences of `c` in `s`. */
  function Occurrences(s: string, c: char): nat
    decreases |s|
  {
    if s == [] then 0 else (if s[0] == c then 1 else 0) + Occurrences(s[1..], c)
  }

  /** `s.split(sep)` for a one-character separator: one piece more than there are
      separators, none of them containing the separator; `""` gives `[""]`. */
  function Split(s: string, sep: char): (r: seq<string>)
    ensures |r| == Occurrences(s, sep) + 1
    ensures forall i :: 0 <= i < |r| ==> sep !in r[i]
    decreases |s|
  {
    if s == [] then [""]
    else if s[0] == sep then [""] + Split(s[1..], sep)
    else
      var t := Split(s[1..], sep);
      [[s[0]] + t[0]] + t[1..]
  }

  /** The characters of all pieces together. */
  function TotalLength(xs: seq<string>): nat
    decreases |xs|
  {
    if xs == [] then 0 else |xs[0]| + TotalLength(xs[1..])
  }

  /** `xs.join(d)`: the pieces with `d` between neighbours; `[]` gives `""` and one
      piece gives itself (JoinShape: the general case). */
  function Join(xs: seq<string>, d: string): (r: string)
    ensures xs == [] ==> r == ""
    ensures |xs| == 1 ==> r == xs[0]
    decreases |xs|
  {
    if xs == [] then ""
    else if |xs| == 1 then xs[0]
    else xs[0] + d + Join(xs[1..], d)
  }

  /** A join starts with the first piece, ends with the last, and holds every piece
      plus one `d` per gap. */
  lemma {:induction false} JoinShape(xs: seq<string>, d: string)
    requires xs != []
    ensures xs[0] <= Join(xs, d)
    ensures |Join(xs, d)| == TotalLength(xs) + (|xs| - 1) * |d|
    ensures |xs[|xs| - 1]| <= |Join(xs, d)| && Join(xs, d)[|Join(xs, d)| - |xs[|xs| - 1]|..] == xs[|xs| - 1]
    decreases |xs|
  {
    if |xs| > 1 {
      var rest := xs[1..];
      JoinShape(rest, d);
      assert (|xs| - 1) * |d| == |d| + (|xs| - 2) * |d|;
      assert rest[|rest| - 1] == xs[|xs| - 1];
      var j := Join(rest, d);
      var last := xs[|xs| - 1];
      assert Join(xs, d) == xs[0] + d + j;
      assert (xs[0] + d + j)[|xs[0] + d + j| - |last|..] == j[|j| - |last|..];
    }
  }

  /** Joining the pieces of a split with the separator gives back the text. */
  lemma {:induction false} JoinSplit(s: string, sep: char)
    ensures Join(Split(s, sep), [sep]) == s
    decreases |s|
  {
    if s != [] {
      JoinSplit(s[1..], sep);
      var t := Split(s[1..], sep);
      if s[0] == sep {
        assert ([""] + t)[1..] == t;
      } else {
        var r := [[s[0]] + t[0]] + t[1..];
        if |t| == 1 {
          assert Join(r, [sep]) == [s[0]] + t[0];
        } else {
          assert r[1..] == t[1..];
          assert Join(t, [sep]) == t[0] + [sep] + Join(t[1..], [sep]);
        }
      }
    }
  }

  /** A piece without the separator splits into itself. */
  lemma {:induction false} SplitWithoutSep(a: string, sep: char)
    requires sep !in a
    ensures Split(a, sep) == [a]
    decreases |a|
  {
    if a != [] {
      SplitWithoutSep(a[1..], sep);
      assert [a[0]] + a[1..] == a;
    }
  }

  /** A separator-free prefix followed by a separator becomes the first piece. */
  lemma {:induction false} SplitAtFirstSep(a: string, b: string, sep: char)
    requires sep !in a
    ensures Split(a + [sep] + b, sep) == [a] + Split(b, sep)
    decreases |a|
  {
    var s := a + [sep] + b;
    if a == [] {
      assert s[1..] == b;
    } else {
      assert s[1..] == a[1..] + [sep] + b;
      SplitAtFirstSep(a[1..], b, sep);
      assert [a[0]] + a[1..] == a;
    }
  }

  /** `parts.map(a => a.trim())`: one entry per piece (TrimEachAt: the trim of that piece). */
  function TrimEach(parts: seq<string>): (r: seq<string>)
    ensures |r| == |parts|
    decreases |parts|
  {
    if parts == [] then [] else [Trim(parts[0])] + TrimEach(parts[1..])
  }

  /** Entry i of the trimmed list is the trim of piece i. */
  lemma {:induction false} TrimEachAt(parts: seq<string>, i: int)
    requires 0 <= i < |parts|
    ensures TrimEach(parts)[i] == Trim(parts[i])
    decreases |parts|
  {
    if i > 0 {
      TrimEachAt(parts[1..], i - 1);
    }
  }

  /** An allergen entry as the parser can produce it. */
  predicate IsEntry(a: string) {
    ',' !in a && IsTrimmed(a)
  }

  /** The allergen list stored for the text typed into the field: one entry more
      than there are commas, none of them holding a comma or edge whitespace. */
  function Parse(text: string): (r: seq<string>)
    ensures |r| == Occurrences(text, ',') + 1
    ensures forall i :: 0 <= i < |r| ==> IsEntry(r[i])
  {
    var parts := Split(text, ',');
    var r := TrimEach(parts);
    assert forall i :: 0 <= i < |r| ==> IsEntry(r[i]) by {
      forall i | 0 <= i < |r| ensures IsEntry(r[i]) {
        TrimEachAt(parts, i);
        TrimAddsNothing(parts[i], ',');
      }
    }
    r
  }

  /** A leading blank (the one after each comma of ", ") does not change the parse. */
  lemma ParseIgnoresLeadingSpace(text: string)
    ensures Parse([' '] + text) == Parse(text)
  {
    var s := [' '] + text;
    assert s[1..] == text;
    var q := Split(text, ',');
    assert Split(s, ',') == [[' '] + q[0]] + q[1..];
    TrimIgnoresLeadingSpace(' ', q[0]);
    assert q == [q[0]] + q[1..];
  }

  /** An entry followed by ", " parses as that entry and then whatever follows. */
  lemma ParseAfterEntry(x: string, rest: string)
    requires IsEntry(x)
    ensures Parse(x + ", " + rest) == [x] + Parse(rest)
  {
    var s := x + ", " + rest;
    assert s == x + [','] + ([' '] + rest);
    SplitAtFirstSep(x, [' '] + rest, ',');
    TrimEachCons(x, Split([' '] + rest, ','));
    ParseIgnoresLeadingSpace(rest);
    TrimOfTrimmed(x);
  }

  /** Re-parsing the displayed `join(', ')` of entries gives the same entries back. */
  lemma {:induction false} ParseJoin(xs: seq<string>)
    requires |xs| >= 1
    requires forall i :: 0 <= i < |xs| ==> IsEntry(xs[i])
    ensures Parse(Join(xs, ", ")) == xs
    decreases |xs|
  {
    if |xs| == 1 {
      SplitWithoutSep(xs[0], ',');
      TrimOfTrimmed(xs[0]);
      assert Parse(xs[0]) == [Trim(xs[0])];
    } else {
      ParseJoin(xs[1..]);
      ParseAfterEntry(xs[0], Join(xs[1..], ", "));
    }
  }

  /** Trimming a list piece by piece starts with the first piece. */
  lemma TrimEachCons(a: string, parts: seq<string>)
    ensures TrimEach([a] + parts) == [Trim(a)] + TrimEach(parts)
  {
    assert ([a] + parts)[1..] == parts;
  }

  /** Typing the field's displayed text back into it stores the same list. */
  lemma ParseDisplayedText(text: string)
    ensures Parse(Join(Parse(text), ", ")) == Parse(text)
  {
    ParseJoin(Parse(text));
  }
}
