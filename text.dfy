/** The JavaScript string operations the core uses: `toLowerCase`, `trim`, `split`,
    `join`, `includes`, and decimal digits for `parseInt(_, 10)` and template literals. */
module Text {
  import opened Seqs

  /** The characters JavaScript's `trim` removes and the regular expression `\s` matches
      (WhiteSpace and LineTerminator of ECMAScript). */
  predicate IsSpace(c: char) {
    c == '\t' || c == '\n' || c == '\U{000B}' || c == '\U{000C}' || c == '\r' || c == ' '
    || c == '\U{00A0}' || c == '\U{1680}' || ('\U{2000}' <= c <= '\U{200A}')
    || c == '\U{2028}' || c == '\U{2029}' || c == '\U{202F}' || c == '\U{205F}'
    || c == '\U{3000}' || c == '\U{FEFF}'
  }

  predicate IsUpper(c: char) { 'A' <= c <= 'Z' }
  predicate IsLower(c: char) { 'a' <= c <= 'z' }
  predicate IsDigit(c: char) { '0' <= c <= '9' }

  function LowerChar(c: char): (r: char)
    ensures IsUpper(c) ==> IsLower(r)
    ensures !IsUpper(c) ==> r == c
  {
    if IsUpper(c) then (c as int + 32) as char else c
  }

  /** `s.toLowerCase()` on the ASCII letters. */
  function Lower(s: string): (r: string)
    ensures |r| == |s|
    ensures forall i :: 0 <= i < |s| ==> r[i] == LowerChar(s[i])
  {
    seq(|s|, i requires 0 <= i < |s| => LowerChar(s[i]))
  }

  lemma LowerNoUpper(s: string)
    requires forall i :: 0 <= i < |s| ==> !IsUpper(s[i])
    ensures Lower(s) == s
  {
  }

  function TrimStart(s: string): string {
    if s != [] && IsSpace(s[0]) then TrimStart(s[1..]) else s
  }

  function TrimEnd(s: string): string {
    if s != [] && IsSpace(s[|s| - 1]) then TrimEnd(s[..|s| - 1]) else s
  }

  /** `trimStart` drops the leading white space and nothing else. */
  lemma {:induction false} TrimStartSpec(s: string)
    ensures |TrimStart(s)| <= |s|
    ensures TrimStart(s) == s[|s| - |TrimStart(s)|..]
    ensures TrimStart(s) == [] || !IsSpace(TrimStart(s)[0])
    ensures forall i :: 0 <= i < |s| - |TrimStart(s)| ==> IsSpace(s[i])
    decreases |s|
  {
    if s != [] && IsSpace(s[0]) {
      var t := s[1..];
      TrimStartSpec(t);
      var r := TrimStart(t);
      var k := |s| - |r|;
      assert TrimStart(s) == r;
      assert r == t[k - 1..];
      assert t[k - 1..] == s[k..];
      assert forall i :: 1 <= i < k ==> s[i] == t[i - 1];
    }
  }

  /** `trimEnd` drops the trailing white space and nothing else. */
  lemma {:induction false} TrimEndSpec(s: string)
    ensures |TrimEnd(s)| <= |s|
    ensures TrimEnd(s) == s[..|TrimEnd(s)|]
    ensures TrimEnd(s) == [] || !IsSpace(TrimEnd(s)[|TrimEnd(s)| - 1])
    ensures forall i :: |TrimEnd(s)| <= i < |s| ==> IsSpace(s[i])
    decreases |s|
  {
    if s != [] && IsSpace(s[|s| - 1]) {
      var t := s[..|s| - 1];
      TrimEndSpec(t);
      var r := TrimEnd(t);
      assert TrimEnd(s) == r;
      assert r == t[..|r|];
      assert t[..|r|] == s[..|r|];
      assert forall i :: |r| <= i < |s| - 1 ==> s[i] == t[i];
    }
  }

  /** `s.trim()`. */
  function Trim(s: string): string {
    TrimEnd(TrimStart(s))
  }

  /** A string that `trim` leaves alone. */
  predicate IsTrimmed(s: string) {
    s == [] || (!IsSpace(s[0]) && !IsSpace(s[|s| - 1]))
  }

  lemma TrimmedFixed(s: string)
    requires IsTrimmed(s)
    ensures Trim(s) == s
  {
  }

  /** `trim` removes leading and trailing white space and nothing in between: its result is
      trimmed and does not change when trimmed again. */
  lemma TrimSpec(s: string)
    ensures IsTrimmed(Trim(s))
    ensures Trim(Trim(s)) == Trim(s)
  {
    var t := TrimStart(s);
    var r := TrimEnd(t);
    TrimStartSpec(s);
    TrimEndSpec(t);
    assert IsTrimmed(r) by {
      if r != [] {
        assert r[0] == t[0];
      }
    }
    TrimmedFixed(r);
  }

  /** What `trim` keeps is a piece of its input, so it holds no character the input lacks. */
  lemma TrimKeepsCharacters(s: string, c: char)
    requires c in Trim(s)
    ensures c in s
  {
    var t := TrimStart(s);
    var r := TrimEnd(t);
    TrimStartSpec(s);
    TrimEndSpec(t);
    var i :| 0 <= i < |r| && r[i] == c;
    assert t[i] == c;
    assert s[|s| - |t| + i] == c;
  }

  /** A leading white-space character does not change the trimmed text. */
  lemma TrimSpacePrefix(c: char, s: string)
    requires IsSpace(c)
    ensures Trim([c] + s) == Trim(s)
  {
    assert ([c] + s)[1..] == s;
  }

  /** `s.split(sep)` for a one-character separator: never empty, and `""` gives `[""]`. */
  function Split(s: string, sep: char): (r: seq<string>)
    ensures |r| >= 1
  {
    if s == [] then [""]
    else if s[0] == sep then [""] + Split(s[1..], sep)
    else
      var rest := Split(s[1..], sep);
      [[s[0]] + rest[0]] + rest[1..]
  }

  /** Splitting at the first separator: the text before it is the first piece. */
  lemma {:induction false} SplitAtSeparator(a: string, sep: char, b: string)
    requires sep !in a
    ensures Split(a + [sep] + b, sep) == [a] + Split(b, sep)
  {
    if a == [] {
      assert a + [sep] + b == [sep] + b;
      assert ([sep] + b)[1..] == b;
    } else {
      assert (a + [sep] + b)[1..] == a[1..] + [sep] + b;
      SplitAtSeparator(a[1..], sep, b);
      assert [a[0]] + a[1..] == a;
    }
  }

  /** Text without the separator is a single piece. */
  lemma {:induction false} SplitNoSeparator(a: string, sep: char)
    requires sep !in a
    ensures Split(a, sep) == [a]
  {
    if a != [] {
      SplitNoSeparator(a[1..], sep);
      assert [a[0]] + a[1..] == a;
    }
  }

  /** A character other than the separator joins the first piece. */
  lemma SplitCons(c: char, s: string, sep: char)
    requires c != sep
    ensures Split([c] + s, sep) == [[c] + Split(s, sep)[0]] + Split(s, sep)[1..]
  {
    assert ([c] + s)[1..] == s;
  }

  /** `xs.join(sep)`. */
  function Join(xs: seq<string>, sep: string): string {
    if xs == [] then ""
    else if |xs| == 1 then xs[0]
    else xs[0] + sep + Join(xs[1..], sep)
  }

  predicate NonEmpty(s: string) { s != [] }

  function MapTrim(xs: seq<string>): (r: seq<string>)
    ensures |r| == |xs|
    ensures forall i :: 0 <= i < |xs| ==> r[i] == Trim(xs[i])
  {
    seq(|xs|, i requires 0 <= i < |xs| => Trim(xs[i]))
  }

  /** `parts.map((x) => x.trim()).filter(Boolean)`. */
  function TrimmedPieces(parts: seq<string>): (r: seq<string>)
    ensures forall i :: 0 <= i < |r| ==> r[i] != [] && r[i] in MapTrim(parts)
  {
    Filter(MapTrim(parts), NonEmpty)
  }

  /** `s.split(sep).map((x) => x.trim()).filter(Boolean)`: the trimmed, non-empty pieces
      of a separated list, in order. Used for colour lists and keywords. */
  function Pieces(s: string, sep: char): (r: seq<string>)
    ensures forall i :: 0 <= i < |r| ==> r[i] != [] && IsTrimmed(r[i]) && sep !in r[i]
  {
    var parts := Split(s, sep);
    var r := TrimmedPieces(parts);
    forall i | 0 <= i < |r| ensures r[i] != [] && IsTrimmed(r[i]) && sep !in r[i] {
      var trimmed := MapTrim(parts);
      var k :| 0 <= k < |trimmed| && trimmed[k] == r[i];
      TrimSpec(parts[k]);
      SplitPiecesHaveNoSeparator(s, sep, k);
      if sep in r[i] { TrimKeepsCharacters(parts[k], sep); }
    }
    r
  }

  lemma {:induction false} SplitPiecesHaveNoSeparator(s: string, sep: char, k: nat)
    requires k < |Split(s, sep)|
    ensures sep !in Split(s, sep)[k]
  {
    if s != [] {
      if s[0] == sep {
        if k > 0 { SplitPiecesHaveNoSeparator(s[1..], sep, k - 1); }
      } else {
        if k == 0 {
          SplitPiecesHaveNoSeparator(s[1..], sep, 0);
        } else {
          SplitPiecesHaveNoSeparator(s[1..], sep, k);
        }
      }
    }
  }

  lemma PiecesAppend(a: seq<string>, b: seq<string>)
    ensures TrimmedPieces(a + b) == TrimmedPieces(a) + TrimmedPieces(b)
  {
    var ta, tb, tab := MapTrim(a), MapTrim(b), MapTrim(a + b);
    forall i | 0 <= i < |tab| ensures tab[i] == (ta + tb)[i] {
      if i < |a| {
        assert (a + b)[i] == a[i];
      } else {
        assert (a + b)[i] == b[i - |a|];
      }
    }
    assert tab == ta + tb;
    FilterAppend(ta, tb, NonEmpty);
  }

  /** A single part contributes its trimmed text, if that is not empty. */
  lemma PiecesSingle(x: string)
    ensures TrimmedPieces([x]) == if Trim(x) == [] then [] else [Trim(x)]
  {
    assert MapTrim([x]) == [Trim(x)];
  }

  /** Leading white space never changes the pieces. */
  lemma PiecesSpacePrefix(c: char, s: string, sep: char)
    requires IsSpace(c) && c != sep
    ensures Pieces([c] + s, sep) == Pieces(s, sep)
  {
    var parts := Split(s, sep);
    SplitCons(c, s, sep);
    TrimSpacePrefix(c, parts[0]);
    PiecesSingle([c] + parts[0]);
    PiecesSingle(parts[0]);
    assert parts == [parts[0]] + parts[1..];
    PiecesAppend([[c] + parts[0]], parts[1..]);
    PiecesAppend([parts[0]], parts[1..]);
  }

  /** Joining trimmed, non-empty, separator-free pieces with ", " and splitting on ","
      gives the pieces back. */
  lemma {:induction false} PiecesOfJoin(xs: seq<string>)
    requires forall i :: 0 <= i < |xs| ==> xs[i] != [] && IsTrimmed(xs[i]) && ',' !in xs[i]
    ensures Pieces(Join(xs, ", "), ',') == xs
  {
    if xs == [] {
      assert Split("", ',') == [""];
      PiecesSingle("");
    } else if |xs| == 1 {
      SplitNoSeparator(xs[0], ',');
      TrimmedFixed(xs[0]);
      PiecesSingle(xs[0]);
    } else {
      var rest := Join(xs[1..], ", ");
      var tail := Split([' '] + rest, ',');
      assert Join(xs, ", ") == xs[0] + [','] + ([' '] + rest);
      SplitAtSeparator(xs[0], ',', [' '] + rest);
      PiecesAppend([xs[0]], tail);
      TrimmedFixed(xs[0]);
      PiecesSingle(xs[0]);
      PiecesSpacePrefix(' ', rest, ',');
      PiecesOfJoin(xs[1..]);
      calc {
        Pieces(Join(xs, ", "), ',');
        TrimmedPieces([xs[0]] + tail);
        TrimmedPieces([xs[0]]) + TrimmedPieces(tail);
        [xs[0]] + Pieces([' '] + rest, ',');
        [xs[0]] + Pieces(rest, ',');
        [xs[0]] + xs[1..];
      }
    }
  }

  /** `s.includes(t)`: `t` occurs in `s` as a contiguous piece. */
  predicate Contains(s: string, t: string)
    decreases |s|
  {
    t <= s || (s != [] && Contains(s[1..], t))
  }

  lemma ContainsEmpty(s: string)
    ensures Contains(s, "")
  {
  }

  function DigitValue(c: char): nat
    requires IsDigit(c)
  {
    c as int - '0' as int
  }

  function DigitChar(d: nat): (c: char)
    requires d < 10
    ensures IsDigit(c) && DigitValue(c) == d
  {
    ('0' as int + d) as char
  }

  /** `parseInt(ds, 10)` for a string of decimal digits. */
  function DigitsValue(ds: string): nat
    requires forall i :: 0 <= i < |ds| ==> IsDigit(ds[i])
  {
    if ds == [] then 0 else DigitsValue(ds[..|ds| - 1]) * 10 + DigitValue(ds[|ds| - 1])
  }

  /** The decimal text of a natural number, as a template literal prints it. */
  function NatText(n: nat): (r: string)
    ensures r != []
    ensures forall i :: 0 <= i < |r| ==> IsDigit(r[i])
  {
    if n < 10 then [DigitChar(n)] else NatText(n / 10) + [DigitChar(n % 10)]
  }

  /** Printing a number and parsing it back in base 10 gives the number. */
  lemma {:induction false} NatTextRoundTrip(n: nat)
    ensures DigitsValue(NatText(n)) == n
  {
    if n >= 10 {
      var t := NatText(n);
      assert t[..|t| - 1] == NatText(n / 10);
      NatTextRoundTrip(n / 10);
    }
  }
}
