/**
 * The string operations of the Java library that the helper's text handling uses:
 * StringTokenizer, String.split("\\s+"), String.trim, String.lastIndexOf,
 * Integer.parseInt and the decimal rendering of an int.
 */
module Text {
  import opened Wrappers

  /** The characters the regular expression `\s` matches: space, tab, newline, vertical tab, form feed, carriage return. */
  const RegexSpace: set<char> := {' ', '\t', '\n', '\U{B}', '\U{C}', '\r'}

  /** The default delimiters of java.util.StringTokenizer: space, tab, newline, carriage return, form feed. */
  const TokenizerDelims: set<char> := {' ', '\t', '\n', '\r', '\U{C}'}

  /** A non-empty string none of whose characters is a delimiter. */
  predicate IsWord(w: string, delims: set<char>) {
    w != [] && forall k :: 0 <= k < |w| ==> w[k] !in delims
  }

  /** The length of the longest prefix of `s` free of delimiters. */
  function RunLength(s: string, delims: set<char>): (n: nat)
    ensures n <= |s|
    ensures forall i :: 0 <= i < n ==> s[i] !in delims
    ensures n < |s| ==> s[n] in delims
  {
    if s == [] || s[0] in delims then 0 else 1 + RunLength(s[1..], delims)
  }

  /** The maximal delimiter-free runs of `s`, left to right: what a tokenizer hands out. */
  function Tokens(s: string, delims: set<char>): (ts: seq<string>)
    ensures forall i :: 0 <= i < |ts| ==> IsWord(ts[i], delims)
    decreases |s|
  {
    if s == [] then []
    else if s[0] in delims then Tokens(s[1..], delims)
    else
      var n := RunLength(s, delims);
      [s[..n]] + Tokens(s[n..], delims)
  }

  /** A word followed by a delimiter, or by nothing, is the first token. */
  lemma TokensOfWordThen(w: string, rest: string, delims: set<char>)
    requires IsWord(w, delims)
    requires rest == [] || rest[0] in delims
    ensures Tokens(w + rest, delims) == [w] + Tokens(rest, delims)
  {
    var s := w + rest;
    var n := RunLength(s, delims);
    assert forall i :: 0 <= i < |w| ==> s[i] == w[i];
    assert |w| < |s| ==> s[|w|] == rest[0];
    assert n == |w|;
    assert s[..n] == w && s[n..] == rest;
  }

  /** The words joined with one separator between neighbours (a `String.join`). */
  function Join(ws: seq<string>, sep: char): string {
    if |ws| == 0 then []
    else if |ws| == 1 then ws[0]
    else ws[0] + [sep] + Join(ws[1..], sep)
  }

  /** The words each followed by a separator (what a loop of `sb.append(w + sep)` builds). */
  function Terminated(ws: seq<string>, sep: char): string {
    if ws == [] then [] else ws[0] + [sep] + Terminated(ws[1..], sep)
  }

  lemma {:induction false} TerminatedSnoc(ws: seq<string>, w: string, sep: char)
    ensures Terminated(ws + [w], sep) == Terminated(ws, sep) + w + [sep]
  {
    if ws != [] {
      assert (ws + [w])[1..] == ws[1..] + [w];
      TerminatedSnoc(ws[1..], w, sep);
    } else {
      assert [w][1..] == [];
    }
  }

  lemma {:induction false} TerminatedIsJoinThenSep(ws: seq<string>, sep: char)
    requires ws != []
    ensures Terminated(ws, sep) == Join(ws, sep) + [sep]
  {
    if |ws| > 1 {
      TerminatedIsJoinThenSep(ws[1..], sep);
    }
  }

  /** Tokenizing words joined by a delimiter gives the words back. */
  lemma {:induction false} TokensOfJoin(ws: seq<string>, sep: char, delims: set<char>)
    requires sep in delims
    requires forall i :: 0 <= i < |ws| ==> IsWord(ws[i], delims)
    ensures Tokens(Join(ws, sep), delims) == ws
  {
    if |ws| == 1 {
      TokensOfWordThen(ws[0], [], delims);
      assert ws[0] + [] == ws[0];
    } else if |ws| > 1 {
      var tail := Join(ws[1..], sep);
      assert Join(ws, sep) == ws[0] + ([sep] + tail);
      TokensOfWordThen(ws[0], [sep] + tail, delims);
      assert ([sep] + tail)[1..] == tail;
      TokensOfJoin(ws[1..], sep, delims);
    }
  }

  /** Tokenizing words each followed by a delimiter gives the words back. */
  lemma {:induction false} TokensOfTerminated(ws: seq<string>, sep: char, delims: set<char>)
    requires sep in delims
    requires forall i :: 0 <= i < |ws| ==> IsWord(ws[i], delims)
    ensures Tokens(Terminated(ws, sep), delims) == ws
  {
    if ws != [] {
      var tail := Terminated(ws[1..], sep);
      assert Terminated(ws, sep) == ws[0] + ([sep] + tail);
      TokensOfWordThen(ws[0], [sep] + tail, delims);
      assert ([sep] + tail)[1..] == tail;
      TokensOfTerminated(ws[1..], sep, delims);
    }
  }

  lemma {:induction false} JoinEnds(ws: seq<string>, sep: char)
    requires ws != [] && forall i :: 0 <= i < |ws| ==> ws[i] != []
    ensures Join(ws, sep) != []
    ensures Join(ws, sep)[0] == ws[0][0]
    ensures Join(ws, sep)[|Join(ws, sep)| - 1] == ws[|ws| - 1][|ws[|ws| - 1]| - 1]
  {
    if |ws| > 1 {
      JoinEnds(ws[1..], sep);
    }
  }

  /** Words joined by a separator that is not a delimiter form one word. */
  lemma {:induction false} JoinIsWord(ws: seq<string>, sep: char, delims: set<char>)
    requires ws != [] && sep !in delims
    requires forall i :: 0 <= i < |ws| ==> IsWord(ws[i], delims)
    ensures IsWord(Join(ws, sep), delims)
  {
    if |ws| > 1 {
      JoinIsWord(ws[1..], sep, delims);
      var tail := Join(ws[1..], sep);
      var s := ws[0] + [sep] + tail;
      forall k | 0 <= k < |s| ensures s[k] !in delims {
        if k < |ws[0]| {
          assert s[k] == ws[0][k];
        } else if k > |ws[0]| {
          assert s[k] == tail[k - |ws[0]| - 1];
        }
      }
    }
  }

  lemma {:induction false} JoinSnoc(ws: seq<string>, w: string, sep: char)
    requires ws != []
    ensures Join(ws + [w], sep) == Join(ws, sep) + [sep] + w
  {
    if |ws| > 1 {
      assert (ws + [w])[1..] == ws[1..] + [w];
      JoinSnoc(ws[1..], w, sep);
    } else {
      assert (ws + [w])[1..] == [w];
    }
  }

  /** The length of the array `line.split("\\s+")` returns in Java. An empty line gives one
      empty field; a line of whitespace only gives none (trailing empty fields are dropped);
      leading whitespace adds an empty first field. */
  function SplitLength(line: string): nat {
    if line == [] then 1
    else
      var words := |Tokens(line, RegexSpace)|;
      if words == 0 then 0
      else if line[0] in RegexSpace then words + 1
      else words
  }

  /** A line of words separated by single spaces has as many fields as words. */
  lemma SplitLengthOfJoin(ws: seq<string>)
    requires ws != []
    requires forall i :: 0 <= i < |ws| ==> IsWord(ws[i], RegexSpace)
    ensures SplitLength(Join(ws, ' ')) == |ws|
  {
    TokensOfJoin(ws, ' ', RegexSpace);
    JoinEnds(ws, ' ');
    assert Join(ws, ' ')[0] !in RegexSpace;
  }

  /** `String.trim` without its leading part: drops the characters up to U+0020 at the start. */
  function TrimStart(s: string): (r: string)
    ensures |r| <= |s| && r == s[|s| - |r|..]
    ensures r == [] || r[0] > ' '
    ensures forall i :: 0 <= i < |s| - |r| ==> s[i] <= ' '
  {
    if s != [] && s[0] <= ' ' then TrimStart(s[1..]) else s
  }

  /** `String.trim` without its trailing part: drops the characters up to U+0020 at the end. */
  function TrimEnd(s: string): (r: string)
    ensures |r| <= |s| && r == s[..|r|]
    ensures r == [] || r[|r| - 1] > ' '
    ensures forall i :: |r| <= i < |s| ==> s[i] <= ' '
  {
    if s != [] && s[|s| - 1] <= ' ' then TrimEnd(s[..|s| - 1]) else s
  }

  /** Java's `String.trim`: both ends stripped of characters up to U+0020. */
  function Trim(s: string): string {
    TrimStart(TrimEnd(s))
  }

  /** Trimming words each followed by a space gives the words joined by single spaces,
      when no word begins or ends with a character that `trim` strips. */
  lemma TrimTerminated(ws: seq<string>)
    requires forall i :: 0 <= i < |ws| ==> ws[i] != [] && ws[i][0] > ' ' && ws[i][|ws[i]| - 1] > ' '
    ensures Trim(Terminated(ws, ' ')) == Join(ws, ' ')
  {
    if ws != [] {
      TerminatedIsJoinThenSep(ws, ' ');
      JoinEnds(ws, ' ');
      var j := Join(ws, ' ');
      assert TrimEnd(j + [' ']) == TrimEnd(j);
      assert TrimEnd(j) == j;
      assert TrimStart(j) == j;
    }
  }

  /** Java's `s.lastIndexOf(c)`: the last position holding `c`, or -1. */
  function LastIndexOf(s: string, c: char): (r: int)
    ensures -1 <= r < |s|
    ensures r >= 0 ==> s[r] == c
    ensures forall j :: r < j < |s| ==> s[j] != c
  {
    if s == [] then -1
    else if s[|s| - 1] == c then |s| - 1
    else LastIndexOf(s[..|s| - 1], c)
  }

  /** getFileExtension: `name.substring(name.lastIndexOf(".") + 1)`. The `catch` returning ""
      cannot be reached, since the start index lies in 0..|name|. */
  function FileExtension(name: string): (ext: string)
    ensures forall k :: 0 <= k < |ext| ==> ext[k] != '.'
    ensures |ext| <= |name| && ext == name[|name| - |ext|..]
    ensures |ext| == |name| || name[|name| - |ext| - 1] == '.'
  {
    var dot := LastIndexOf(name, '.');
    assert forall j :: dot < j < |name| ==> name[j] != '.';
    name[dot + 1..]
  }

  /** A file name has extension exactly "txt" when it ends in ".txt" or is "txt" itself. */
  lemma TxtExtension(name: string)
    ensures FileExtension(name) == "txt" <==> name == "txt" || (|name| >= 4 && name[|name| - 4..] == ".txt")
  {
    if FileExtension(name) == "txt" {
      TxtExtensionOnlyIf(name);
    }
    if name == "txt" || (|name| >= 4 && name[|name| - 4..] == ".txt") {
      TxtExtensionIf(name);
    }
  }

  lemma TxtExtensionOnlyIf(name: string)
    requires FileExtension(name) == "txt"
    ensures name == "txt" || (|name| >= 4 && name[|name| - 4..] == ".txt")
  {
    var ext := FileExtension(name);
    if |name| != 3 {
      DotThenSuffix(name, |ext|);
      assert ['.'] + ext == ".txt";
    }
  }

  lemma TxtExtensionIf(name: string)
    requires name == "txt" || (|name| >= 4 && name[|name| - 4..] == ".txt")
    ensures FileExtension(name) == "txt"
  {
    var n := |name|;
    var dot := LastIndexOf(name, '.');
    if name == "txt" {
      assert forall j :: 0 <= j < 3 ==> name[j] != '.';
      assert dot == -1;
    } else {
      assert name[n - 4] == '.' && name[n - 3] == 't' && name[n - 2] == 'x' && name[n - 1] == 't' by {
        assert name[n - 4..][0] == '.' && name[n - 4..][1] == 't' && name[n - 4..][2] == 'x' && name[n - 4..][3] == 't';
      }
      assert dot == n - 4;
      var ext := name[n - 3..];
      assert ext[0] == 't' && ext[1] == 'x' && ext[2] == 't';
      assert ext == "txt";
    }
  }

  lemma DotThenSuffix(name: string, k: nat)
    requires k < |name| && name[|name| - k - 1] == '.'
    ensures name[|name| - k - 1..] == ['.'] + name[|name| - k..]
  {
  }

  predicate IsDigit(c: char) {
    '0' <= c <= '9'
  }

  predicate AllDigits(s: string) {
    forall k :: 0 <= k < |s| ==> IsDigit(s[k])
  }

  function DigitChar(d: nat): (c: char)
    requires d < 10
    ensures IsDigit(c) && c as int - '0' as int == d
  {
    ('0' as int + d) as char
  }

  /** The value of a string of decimal digits. */
  function DigitsValue(s: string): nat
    requires AllDigits(s)
  {
    if s == [] then 0 else DigitsValue(s[..|s| - 1]) * 10 + (s[|s| - 1] as int - '0' as int)
  }

  /** The decimal digits of a natural number, without leading zeros. */
  function NatToString(n: nat): (s: string)
    ensures s != [] && AllDigits(s)
  {
    if n < 10 then [DigitChar(n)] else NatToString(n / 10) + [DigitChar(n % 10)]
  }

  /** The text `"" + i` gives for a Java int. */
  function IntToString(i: int): (s: string)
    ensures s != [] && forall k :: 0 <= k < |s| ==> s[k] == '-' || IsDigit(s[k])
  {
    if i < 0 then "-" + NatToString(-i) else NatToString(i)
  }

  const IntMin: int := -0x8000_0000
  const IntMax: int := 0x7fff_ffff

  /** Integer.parseInt on ASCII input: an optional sign, then at least one digit, and a value
      inside the range of a 32-bit int; anything else throws NumberFormatException. */
  function ParseInt(s: string): Option<int> {
    var negative := s != [] && s[0] == '-';
    var digits := if s != [] && (s[0] == '-' || s[0] == '+') then s[1..] else s;
    if digits == [] || !AllDigits(digits) then None
    else
      var v: int := if negative then -(DigitsValue(digits) as int) else DigitsValue(digits);
      if IntMin <= v <= IntMax then Some(v) else None
  }

  lemma {:induction false} DigitsRoundTrip(n: nat)
    ensures DigitsValue(NatToString(n)) == n
  {
    if n >= 10 {
      DigitsRoundTrip(n / 10);
      var s := NatToString(n);
      assert s[..|s| - 1] == NatToString(n / 10);
    }
  }

  /** Parsing the decimal text of an int gives the int back. */
  lemma IntRoundTrip(i: int)
    requires IntMin <= i <= IntMax
    ensures ParseInt(IntToString(i)) == Some(i)
  {
    var s := IntToString(i);
    if i < 0 {
      DigitsRoundTrip(-i);
      assert s[0] == '-';
      assert s[1..] == NatToString(-i);
    } else {
      DigitsRoundTrip(i);
      assert s == NatToString(i);
      assert IsDigit(s[0]);
    }
  }
}
