/** The handful of Python `str` operations the pipeline relies on, over
    `seq<char>`: `strip`, `lower`, `split(sep)`, `sep.join`, `in` and the
    decimal rendering of an `int`.  Whitespace, letters and digits are the
    ASCII ones. */
module Text {

  type String = seq<char>

  /** The ASCII characters for which Python's `str.isspace` holds: tab, line
      feed, vertical tab, form feed, carriage return, the four information
      separators 0x1C..0x1F, and space. */
  predicate IsSpace(c: char) {
    c == ' ' || ('\t' <= c <= '\r') || ('\U{1C}' <= c <= '\U{1F}')
  }

  predicate IsDigit(c: char) {
    '0' <= c <= '9'
  }

  /** True when `s` neither starts nor ends with whitespace. */
  predicate IsTrimmed(s: String) {
    s == [] || (!IsSpace(s[0]) && !IsSpace(s[|s| - 1]))
  }

  /** `s.lstrip()`: drops the leading whitespace and nothing else. */
  function TrimStart(s: String): (r: String)
    ensures |r| <= |s| && r == s[|s| - |r|..]
    ensures r == [] || !IsSpace(r[0])
  {
    if |s| > 0 && IsSpace(s[0]) then TrimStart(s[1..]) else s
  }

  /** `s.rstrip()`: drops the trailing whitespace and nothing else. */
  function TrimEnd(s: String): (r: String)
    ensures |r| <= |s| && r == s[..|r|]
    ensures r == [] || !IsSpace(r[|r| - 1])
  {
    if |s| > 0 && IsSpace(s[|s| - 1]) then TrimEnd(s[..|s| - 1]) else s
  }

  /** `s.strip()`: no outer whitespace is left, and a text that has none
      comes back unchanged. */
  function Strip(s: String): (r: String)
    ensures IsTrimmed(r)
    ensures |r| <= |s|
    ensures IsTrimmed(s) ==> r == s
  {
    TrimEnd(TrimStart(s))
  }

  /** `c.lower()` for one character: only `A`..`Z` change. */
  function LowerChar(c: char): char {
    if 'A' <= c <= 'Z' then (c as int - 'A' as int + 'a' as int) as char else c
  }

  /** `s.lower()`. */
  function Lower(s: String): String {
    seq(|s|, i requires 0 <= i < |s| => LowerChar(s[i]))
  }

  /** `sub in s`: some window of `s` equals `sub`. */
  predicate Contains(s: String, sub: String)
    decreases |s|
  {
    (|sub| <= |s| && s[..|sub|] == sub) || (|s| > 0 && Contains(s[1..], sub))
  }

  lemma {:induction false} ContainsNeedsRoom(s: String, sub: String)
    requires Contains(s, sub)
    ensures |sub| <= |s|
    decreases |s|
  {
    if !(|sub| <= |s| && s[..|sub|] == sub) {
      ContainsNeedsRoom(s[1..], sub);
    }
  }

  /** Text found inside `s` is still found once more text is appended. */
  lemma {:induction false} ContainsExtend(s: String, t: String, sub: String)
    requires Contains(s, sub)
    ensures Contains(s + t, sub)
    decreases |s|
  {
    if |sub| <= |s| && s[..|sub|] == sub {
      assert (s + t)[..|sub|] == sub;
    } else {
      ContainsExtend(s[1..], t, sub);
      assert (s + t)[1..] == s[1..] + t;
    }
  }

  /** Looking for a one-character text is looking for that character. */
  lemma {:induction false} ContainsChar(s: String, c: char)
    ensures Contains(s, [c]) <==> c in s
    decreases |s|
  {
    if |s| > 0 {
      ContainsChar(s[1..], c);
      assert s == [s[0]] + s[1..];
    }
  }

  /** Stripping keeps a slice of `s`, so it brings in no new character. */
  lemma StripKeepsChars(s: String)
    ensures forall c :: c in Strip(s) ==> c in s
  {
    var t := TrimStart(s);
    assert t == s[|s| - |t|..];
    assert Strip(s) == t[..|Strip(s)|];
  }

  /** `sep.join(parts)`. */
  function Join(sep: String, parts: seq<String>): String
    decreases |parts|
  {
    if |parts| == 0 then []
    else if |parts| == 1 then parts[0]
    else parts[0] + sep + Join(sep, parts[1..])
  }

  /** Joining one more part appends the separator and that part. */
  lemma {:induction false} JoinSnoc(sep: String, parts: seq<String>, last: String)
    requires |parts| > 0
    ensures Join(sep, parts + [last]) == Join(sep, parts) + sep + last
    decreases |parts|
  {
    if |parts| == 1 {
      assert (parts + [last])[1..] == [last];
    } else {
      assert (parts + [last])[1..] == parts[1..] + [last];
      JoinSnoc(sep, parts[1..], last);
    }
  }

  /** The joined text of the first `n` parts begins the joined text of all. */
  lemma {:induction false} JoinPrefix(sep: String, parts: seq<String>, n: nat)
    requires n <= |parts|
    ensures |Join(sep, parts[..n])| <= |Join(sep, parts)|
    ensures Join(sep, parts[..n]) == Join(sep, parts)[..|Join(sep, parts[..n])|]
    decreases |parts| - n
  {
    if n < |parts| {
      JoinPrefix(sep, parts, n + 1);
      assert parts[..n + 1] == parts[..n] + [parts[n]];
      if n > 0 {
        JoinSnoc(sep, parts[..n], parts[n]);
      }
    } else {
      assert parts[..n] == parts;
    }
  }

  /** Joined text grows by the separator and the next part, so a longer
      leading run is never shorter. */
  lemma {:induction false} JoinLengthGrows(sep: String, parts: seq<String>, m: nat, n: nat)
    requires 1 <= m <= n <= |parts|
    ensures |Join(sep, parts[..n])| >= |Join(sep, parts[..m])| + (n - m) * |sep|
    decreases n - m
  {
    if m < n {
      JoinLengthGrows(sep, parts, m, n - 1);
      assert parts[..n] == parts[..n - 1] + [parts[n - 1]];
      JoinSnoc(sep, parts[..n - 1], parts[n - 1]);
    }
  }

  /** `s.split(sep)` for a non-empty separator: scanning left to right, each
      occurrence of `sep` ends a piece.  Joining the pieces gives `s` back,
      and no piece contains the separator. */
  function Split(s: String, sep: String): (r: seq<String>)
    requires |sep| > 0
    ensures |r| >= 1
    ensures Join(sep, r) == s
    ensures forall i :: 0 <= i < |r| ==> !Contains(r[i], sep)
    decreases |s|
  {
    if |s| < |sep| then
      (if Contains(s, sep) then ContainsNeedsRoom(s, sep); [s] else [s])
    else if s[..|sep|] == sep then
      var rest := Split(s[|sep|..], sep);
      JoinEmptyFirst(sep, rest);
      assert !Contains([], sep);
      assert s == sep + s[|sep|..];
      [[]] + rest
    else
      var rest := Split(s[1..], sep);
      JoinExtendFirst(sep, s[0], rest);
      JoinPrefix(sep, rest, 1);
      assert rest[..1] == [rest[0]];
      HeadHasNoSep(s, sep, rest[0]);
      assert s == [s[0]] + s[1..];
      [[s[0]] + rest[0]] + rest[1..]
  }

  /** An empty first part puts the separator in front of the rest. */
  lemma JoinEmptyFirst(sep: String, rest: seq<String>)
    requires |rest| > 0
    ensures Join(sep, [[]] + rest) == sep + Join(sep, rest)
  {
    assert ([[]] + rest)[1..] == rest;
  }

  /** Putting a character in front of the first part puts it in front of
      the joined text. */
  lemma JoinExtendFirst(sep: String, c: char, rest: seq<String>)
    requires |rest| > 0
    ensures Join(sep, [[c] + rest[0]] + rest[1..]) == [c] + Join(sep, rest)
  {
    if |rest| > 1 {
      assert ([[c] + rest[0]] + rest[1..])[1..] == rest[1..];
      assert rest == [rest[0]] + rest[1..];
    } else {
      assert rest == [rest[0]];
    }
  }

  /** A first piece grown by a character at which no separator starts still
      holds no separator. */
  lemma HeadHasNoSep(s: String, sep: String, piece: String)
    requires |sep| > 0 && |sep| <= |s| && s[..|sep|] != sep
    requires !Contains(piece, sep)
    requires |piece| < |s| && piece == s[1..|piece| + 1]
    ensures !Contains([s[0]] + piece, sep)
  {
    var head := [s[0]] + piece;
    assert head == s[..|head|];
    assert head[1..] == piece;
  }

  /** Splitting a text that does not start with the separator: its first
      character joins the first piece of the rest. */
  lemma SplitNoMatch(s: String, sep: String)
    requires |sep| > 0 && |sep| <= |s| && s[..|sep|] != sep
    ensures Split(s, sep) == [[s[0]] + Split(s[1..], sep)[0]] + Split(s[1..], sep)[1..]
  {
  }

  /** When no occurrence of `sep` starts inside `a`, splitting `a + sep + b`
      yields `a` followed by the pieces of `b`. */
  lemma {:induction false} SplitAfterFirst(a: String, sep: String, b: String)
    requires |sep| > 0
    requires !Contains(a + sep[..|sep| - 1], sep)
    ensures Split(a + sep + b, sep) == [a] + Split(b, sep)
    decreases |a|
  {
    var s := a + sep + b;
    if |a| == 0 {
      assert s[..|sep|] == sep && s[|sep|..] == b;
    } else {
      var w := a + sep[..|sep| - 1];
      assert s[..|sep|] == w[..|sep|];
      assert w[1..] == a[1..] + sep[..|sep| - 1];
      SplitAfterFirst(a[1..], sep, b);
      assert s[1..] == a[1..] + sep + b;
      SplitNoMatch(s, sep);
      assert [s[0]] + a[1..] == a;
    }
  }

  /** A text without the separator is a single piece. */
  lemma {:induction false} SplitWhole(s: String, sep: String)
    requires |sep| > 0
    requires !Contains(s, sep)
    ensures Split(s, sep) == [s]
    decreases |s|
  {
    if |s| >= |sep| {
      assert s[..|sep|] != sep;
      SplitWhole(s[1..], sep);
    }
  }

  /** Splitting undoes joining when no occurrence of `sep` can start inside
      a part (not even one running into the separator that follows it). */
  lemma {:induction false} SplitJoin(parts: seq<String>, sep: String)
    requires |sep| > 0 && |parts| > 0
    requires forall i :: 0 <= i < |parts| ==> !Contains(parts[i] + sep[..|sep| - 1], sep)
    ensures Split(Join(sep, parts), sep) == parts
    decreases |parts|
  {
    if |parts| == 1 {
      if Contains(parts[0], sep) {
        ContainsExtend(parts[0], sep[..|sep| - 1], sep);
      }
      SplitWhole(parts[0], sep);
    } else {
      SplitJoin(parts[1..], sep);
      SplitAfterFirst(parts[0], sep, Join(sep, parts[1..]));
      assert parts == [parts[0]] + parts[1..];
    }
  }

  /** The decimal digit for `d`. */
  function DigitChar(d: nat): char
    requires d < 10
  {
    ('0' as int + d) as char
  }

  /** `str(n)` for a natural number: decimal, no leading zeros. */
  function NatToString(n: nat): (r: String)
    ensures |r| >= 1
    ensures forall i :: 0 <= i < |r| ==> IsDigit(r[i])
    ensures |r| > 1 ==> r[0] != '0'
  {
    if n < 10 then [DigitChar(n)] else NatToString(n / 10) + [DigitChar(n % 10)]
  }
}
