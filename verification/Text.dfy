/** String operations of the Rust and Python standard libraries that the modelled code relies on. */
module Text {

  /** Unicode White_Space, as `char::is_whitespace` tests it. */
  predicate IsWhitespace(c: char) {
    || '\t' <= c <= '\r'
    || c in {' ', '\U{0085}', '\U{00A0}', '\U{1680}', '\U{2028}', '\U{2029}', '\U{202F}', '\U{205F}', '\U{3000}'}
    || '\U{2000}' <= c <= '\U{200A}'
  }

  function TrimStart(s: string): string {
    if s != "" && IsWhitespace(s[0]) then TrimStart(s[1..]) else s
  }

  function TrimEnd(s: string): string {
    if s != "" && IsWhitespace(s[|s| - 1]) then TrimEnd(s[..|s| - 1]) else s
  }

  function Trim(s: string): string {
    TrimEnd(TrimStart(s))
  }

  /** `trim_start_matches(c)`: drops every leading `c`. */
  function TrimStartMatches(s: string, c: char): string {
    if s != "" && s[0] == c then TrimStartMatches(s[1..], c) else s
  }

  /** `trim_end_matches(c)`: drops every trailing `c`. */
  function TrimEndMatches(s: string, c: char): (r: string)
    ensures r <= s
    ensures r == "" || r[|r| - 1] != c
    ensures forall i :: |r| <= i < |s| ==> s[i] == c
  {
    if s != "" && s[|s| - 1] == c then TrimEndMatches(s[..|s| - 1], c) else s
  }

  function ToAsciiLower(s: string): (r: string)
    ensures |r| == |s|
  {
    seq(|s|, i requires 0 <= i < |s| => if 'A' <= s[i] <= 'Z' then (s[i] as int + 32) as char else s[i])
  }

  /** Each capital letter becomes the small one in the same place of the alphabet; nothing else changes. */
  lemma LowerExactly(s: string, i: nat)
    requires i < |s|
    ensures forall k | 0 <= k < 26 ::
      s[i] == "ABCDEFGHIJKLMNOPQRSTUVWXYZ"[k] ==> ToAsciiLower(s)[i] == "abcdefghijklmnopqrstuvwxyz"[k]
    ensures !('A' <= s[i] <= 'Z') ==> ToAsciiLower(s)[i] == s[i]
  {}

  /** The same letter of the alphabet, capital or small, or the same character. */
  predicate SameLetter(c: char, d: char) {
    || c == d
    || ('A' <= c <= 'Z' && 'a' <= d <= 'z' && c as int - 'A' as int == d as int - 'a' as int)
    || ('a' <= c <= 'z' && 'A' <= d <= 'Z' && c as int - 'a' as int == d as int - 'A' as int)
  }

  predicate SameLetters(a: string, b: string) {
    |a| == |b| && forall i | 0 <= i < |a| :: SameLetter(a[i], b[i])
  }

  /** Folding identifies exactly the texts that differ in capitals only. */
  lemma FoldedAlike(a: string, b: string)
    ensures ToAsciiLower(a) == ToAsciiLower(b) <==> SameLetters(a, b)
  {
    var x, y := ToAsciiLower(a), ToAsciiLower(b);
    if x == y {
      forall i | 0 <= i < |a|
        ensures SameLetter(a[i], b[i])
      {
        assert x[i] == y[i];
      }
    }
    if SameLetters(a, b) {
      forall i | 0 <= i < |a|
        ensures x[i] == y[i]
      {
        assert SameLetter(a[i], b[i]);
      }
    }
  }

  // ---- What trimming means ----

  predicate Blank(s: string) {
    forall i | 0 <= i < |s| :: IsWhitespace(s[i])
  }

  /** Nothing to trim at either end. */
  predicate Bare(s: string) {
    s != "" && !IsWhitespace(s[0]) && !IsWhitespace(s[|s| - 1])
  }

  lemma {:induction false} TrimStartOf(blanks: string, s: string)
    requires Blank(blanks) && (s == "" || !IsWhitespace(s[0]))
    ensures TrimStart(blanks + s) == s
  {
    if blanks == "" {
      assert blanks + s == s;
    } else {
      assert (blanks + s)[0] == blanks[0] && (blanks + s)[1..] == blanks[1..] + s;
      TrimStartOf(blanks[1..], s);
    }
  }

  lemma {:induction false} TrimEndOf(s: string, blanks: string)
    requires Blank(blanks) && (s == "" || !IsWhitespace(s[|s| - 1]))
    ensures TrimEnd(s + blanks) == s
  {
    if blanks == "" {
      assert s + blanks == s;
    } else {
      var n := |blanks| - 1;
      assert (s + blanks)[|s + blanks| - 1] == blanks[n] && (s + blanks)[..|s + blanks| - 1] == s + blanks[..n];
      TrimEndOf(s, blanks[..n]);
    }
  }

  /** Trimming removes the blanks at both ends and nothing else. */
  lemma TrimOf(before: string, s: string, after: string)
    requires Blank(before) && Blank(after) && Bare(s)
    ensures Trim(before + s + after) == s
  {
    assert before + s + after == before + (s + after);
    TrimStartOf(before, s + after);
    TrimEndOf(s, after);
  }

  lemma {:induction false} TrimStartMatchesOf(run: string, s: string, c: char)
    requires (forall i | 0 <= i < |run| :: run[i] == c) && (s == "" || s[0] != c)
    ensures TrimStartMatches(run + s, c) == s
  {
    if run == "" {
      assert run + s == s;
    } else {
      assert (run + s)[0] == c && (run + s)[1..] == run[1..] + s;
      TrimStartMatchesOf(run[1..], s, c);
    }
  }

  // ---- Order ----

  predicate StartsWith(s: string, prefix: string) {
    prefix <= s
  }

  predicate Contains(s: string, part: string) {
    exists i | 0 <= i <= |s| :: part <= s[i..]
  }

  /** Code-point order, which is also the byte order of UTF-8. */
  predicate StringLeq(a: string, b: string) {
    a == "" || (b != "" && (a[0] < b[0] || (a[0] == b[0] && StringLeq(a[1..], b[1..]))))
  }

  /** The strings agree up to position `n`, where `a` ends or has the smaller character. */
  predicate PrecedesAt(a: string, b: string, n: nat) {
    n <= |a| && n <= |b| && a[..n] == b[..n] && (n == |a| || (n < |b| && a[n] < b[n]))
  }

  lemma {:induction false} StringLeqExactly(a: string, b: string)
    ensures StringLeq(a, b) <==> exists n: nat :: PrecedesAt(a, b, n)
  {
    if a == "" {
      assert PrecedesAt(a, b, 0);
    } else if b != "" {
      StringLeqExactly(a[1..], b[1..]);
      if a[0] < b[0] {
        assert PrecedesAt(a, b, 0);
      } else if a[0] == b[0] {
        if n: nat :| PrecedesAt(a[1..], b[1..], n) {
          assert a[..n + 1] == [a[0]] + a[1..][..n] && b[..n + 1] == [b[0]] + b[1..][..n];
          assert PrecedesAt(a, b, n + 1);
        }
        if n: nat :| PrecedesAt(a, b, n) {
          assert n > 0 && a[1..][..n - 1] == a[..n][1..] && b[1..][..n - 1] == b[..n][1..];
          assert PrecedesAt(a[1..], b[1..], n - 1);
        }
      }
    }
  }

  lemma StringLeqTotal(a: string, b: string)
    ensures StringLeq(a, b) || StringLeq(b, a)
  {}

  lemma StringLeqAntisymmetric(a: string, b: string)
    requires StringLeq(a, b) && StringLeq(b, a)
    ensures a == b
  {
    if a != "" && b != "" {
      StringLeqAntisymmetric(a[1..], b[1..]);
      assert a == [a[0]] + a[1..] && b == [b[0]] + b[1..];
    }
  }

  lemma StringLeqTransitive(a: string, b: string, c: string)
    requires StringLeq(a, b) && StringLeq(b, c)
    ensures StringLeq(a, c)
  {}

  // ---- Joining and splitting ----

  function Join(parts: seq<string>, separator: string): string {
    if |parts| == 0 then ""
    else if |parts| == 1 then parts[0]
    else parts[0] + separator + Join(parts[1..], separator)
  }

  lemma {:induction false} JoinAppend(parts: seq<string>, more: seq<string>, separator: string)
    requires parts != [] && more != []
    ensures Join(parts + more, separator) == Join(parts, separator) + separator + Join(more, separator)
  {
    assert (parts + more)[1..] == parts[1..] + more;
    if |parts| > 1 {
      JoinAppend(parts[1..], more, separator);
    }
  }

  lemma {:induction false} JoinSnoc(parts: seq<string>, last: string, separator: string)
    requires parts != []
    ensures Join(parts + [last], separator) == Join(parts, separator) + separator + last
  {
    JoinAppend(parts, [last], separator);
  }

  /** Splits at every `separator`; the result is never empty. */
  function Split(s: string, separator: char): (r: seq<string>)
    ensures r != []
    ensures forall i | 0 <= i < |r| :: separator !in r[i]
  {
    if s == "" then [""]
    else
      var rest := Split(s[1..], separator);
      if s[0] == separator then [""] + rest else [[s[0]] + rest[0]] + rest[1..]
  }

  lemma {:induction false} JoinSplit(s: string, separator: char)
    ensures Join(Split(s, separator), [separator]) == s
  {
    if s != "" {
      JoinSplit(s[1..], separator);
      var rest := Split(s[1..], separator);
      assert s == [s[0]] + s[1..];
      if s[0] == separator {
        assert ([""] + rest)[1..] == rest;
      } else {
        assert ([[s[0]] + rest[0]] + rest[1..])[1..] == rest[1..];
      }
    }
  }

  lemma {:induction false} SplitNone(s: string, separator: char)
    requires separator !in s
    ensures Split(s, separator) == [s]
  {
    if s != "" {
      SplitNone(s[1..], separator);
      assert s == [s[0]] + s[1..];
    }
  }

  lemma {:induction false} SplitAppend(s: string, t: string, separator: char)
    requires separator !in s
    ensures Split(s + [separator] + t, separator) == [s] + Split(t, separator)
  {
    var all := s + [separator] + t;
    if s == "" {
      assert all[1..] == t;
    } else {
      assert all[1..] == s[1..] + [separator] + t;
      SplitAppend(s[1..], t, separator);
      assert s == [s[0]] + s[1..];
    }
  }

  lemma JoinCons(parts: seq<string>, separator: string)
    requires |parts| > 1
    ensures Join(parts, separator) == parts[0] + separator + Join(parts[1..], separator)
    ensures parts == [parts[0]] + parts[1..]
  {}

  lemma {:induction false} SplitJoin(parts: seq<string>, separator: char)
    requires parts != []
    requires forall i | 0 <= i < |parts| :: separator !in parts[i]
    ensures Split(Join(parts, [separator]), separator) == parts
  {
    if |parts| == 1 {
      SplitNone(parts[0], separator);
      assert Join(parts, [separator]) == parts[0] && parts == [parts[0]];
    } else {
      JoinCons(parts, [separator]);
      SplitJoin(parts[1..], separator);
      SplitAppend(parts[0], Join(parts[1..], [separator]), separator);
    }
  }

  // ---- Lines ----

  function StripReturn(s: string): string {
    if s != "" && s[|s| - 1] == '\r' then s[..|s| - 1] else s
  }

  function StripReturns(pieces: seq<string>): (r: seq<string>)
    ensures |r| == |pieces|
    ensures forall i | 0 <= i < |r| :: r[i] == StripReturn(pieces[i])
  {
    seq(|pieces|, i requires 0 <= i < |pieces| => StripReturn(pieces[i]))
  }

  /** `str::lines`: a line that a newline ends loses one carriage return before it; a final
      line without a newline is kept as it is; a final empty line is dropped. */
  function Lines(s: string): seq<string> {
    var pieces := Split(s, '\n');
    var last := |pieces| - 1;
    StripReturns(pieces[..last]) + (if pieces[last] == "" then [] else [pieces[last]])
  }

  lemma EmptyHasNoLines()
    ensures Lines("") == []
  {
    SplitNone("", '\n');
    assert [""][..0] == [];
  }

  // ---- UTF-8 ----

  newtype byte = x: int | 0 <= x < 256

  function EncodeChar(c: char): (r: seq<byte>)
    ensures 1 <= |r| <= 4
  {
    var n := c as int;
    if n < 0x80 then [n as byte]
    else if n < 0x800 then [(0xC0 + n / 64) as byte, (0x80 + n % 64) as byte]
    else if n < 0x10000 then [(0xE0 + n / 4096) as byte, (0x80 + n / 64 % 64) as byte, (0x80 + n % 64) as byte]
    else [(0xF0 + n / 262144) as byte, (0x80 + n / 4096 % 64) as byte,
          (0x80 + n / 64 % 64) as byte, (0x80 + n % 64) as byte]
  }

  function Encode(s: string): seq<byte> {
    if s == "" then [] else EncodeChar(s[0]) + Encode(s[1..])
  }

  /** `str::len`: the number of UTF-8 bytes. */
  function ByteLength(s: string): nat {
    |Encode(s)|
  }

  lemma {:induction false} EncodeAppend(s: string, t: string)
    ensures Encode(s + t) == Encode(s) + Encode(t)
  {
    if s == "" {
      assert s + t == t;
    } else {
      assert (s + t)[1..] == s[1..] + t;
      EncodeAppend(s[1..], t);
    }
  }

  /** The first byte of an encoded character tells how many bytes it takes. */
  function WidthOf(lead: byte): nat {
    if lead < 0x80 then 1 else if lead < 0xE0 then 2 else if lead < 0xF0 then 3 else 4
  }

  lemma EncodeCharWidth(c: char)
    ensures |EncodeChar(c)| == WidthOf(EncodeChar(c)[0])
  {}

  function DecodeChar(bytes: seq<byte>): int
    requires 1 <= |bytes| <= 4
  {
    match |bytes|
    case 1 => bytes[0] as int
    case 2 => (bytes[0] as int - 0xC0) * 64 + (bytes[1] as int - 0x80)
    case 3 => (bytes[0] as int - 0xE0) * 4096 + (bytes[1] as int - 0x80) * 64 + (bytes[2] as int - 0x80)
    case _ => (bytes[0] as int - 0xF0) * 262144 + (bytes[1] as int - 0x80) * 4096
              + (bytes[2] as int - 0x80) * 64 + (bytes[3] as int - 0x80)
  }

  lemma Base64Digits(n: nat)
    ensures n == n / 64 * 64 + n % 64
    ensures n / 4096 == n / 64 / 64 && n / 262144 == n / 64 / 64 / 64
  {}

  lemma DecodeEncodeChar(c: char)
    ensures DecodeChar(EncodeChar(c)) == c as int
  {
    var n := c as int;
    Base64Digits(n);
    Base64Digits(n / 64);
    Base64Digits(n / 4096);
  }

  lemma EncodeCharPrefixFree(a: char, b: char, x: seq<byte>, y: seq<byte>)
    requires EncodeChar(a) + x == EncodeChar(b) + y
    ensures a == b && x == y
  {
    var l, r := EncodeChar(a) + x, EncodeChar(b) + y;
    assert l[0] == EncodeChar(a)[0] && r[0] == EncodeChar(b)[0];
    EncodeCharWidth(a);
    EncodeCharWidth(b);
    var k := |EncodeChar(a)|;
    assert l[..k] == EncodeChar(a) && r[..k] == EncodeChar(b);
    assert l[k..] == x && r[k..] == y;
    DecodeEncodeChar(a);
    DecodeEncodeChar(b);
  }

  /** Distinct strings have distinct UTF-8 encodings. */
  lemma {:induction false} EncodeInjective(s: string, t: string)
    requires Encode(s) == Encode(t)
    ensures s == t
  {
    if s != "" && t != "" {
      EncodeCharPrefixFree(s[0], t[0], Encode(s[1..]), Encode(t[1..]));
      EncodeInjective(s[1..], t[1..]);
      assert s == [s[0]] + s[1..] && t == [t[0]] + t[1..];
    }
  }
}
