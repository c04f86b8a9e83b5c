/** The hash chain of the audit log: what `verify` accepts, and why an accepted log cannot be
    exchanged for another one with the same final hash. */
module AuditChain {
  import opened Wrappers
  import opened Text

  const U64_MAX: nat := 0xFFFF_FFFF_FFFF_FFFF

  /** One event. `fields` stands for everything but the sequence number and the two hashes. */
  datatype Entry<+T> = Entry(seqNo: nat, fields: T, previousHash: string, entryHash: string)

  /** JSON and SHA-256, which are not modelled further. */
  datatype Codec<!T> = Codec(
    serialize: Entry<T> -> string,
    parse: string -> Option<Entry<T>>,
    sha256: seq<byte> -> seq<byte>)

  /** A JSON object on one line. */
  predicate IsObjectLine(line: string) {
    |line| >= 2 && line[0] == '{' && line[|line| - 1] == '}' && '\n' !in line
  }

  /** Serializing writes an object on one line that parses back; a digest has 32 bytes. */
  ghost predicate Faithful<T(!new)>(codec: Codec<T>) {
    && (forall e: Entry<T> | e.seqNo <= U64_MAX ::
          IsObjectLine(codec.serialize(e)) && codec.parse(codec.serialize(e)) == Some(e))
    && (forall x: seq<byte> :: |codec.sha256(x)| == 32)
  }

  // ---- Hashes as text ----

  function HexDigit(n: nat): char
    requires n < 16
  {
    "0123456789abcdef"[n]
  }

  function Hex(bytes: seq<byte>): (r: string)
    ensures |r| == 2 * |bytes|
  {
    if bytes == [] then ""
    else [HexDigit(bytes[0] as nat / 16), HexDigit(bytes[0] as nat % 16)] + Hex(bytes[1..])
  }

  lemma {:induction false} HexNoBrace(bytes: seq<byte>)
    ensures '{' !in Hex(bytes)
  {
    if bytes != [] {
      HexNoBrace(bytes[1..]);
    }
  }

  lemma HexDigitInjective(n: nat, m: nat)
    requires n < 16 && m < 16 && HexDigit(n) == HexDigit(m)
    ensures n == m
  {}

  lemma {:induction false} HexInjective(a: seq<byte>, b: seq<byte>)
    requires Hex(a) == Hex(b)
    ensures a == b
  {
    if a != [] && b != [] {
      assert Hex(a)[0] == Hex(b)[0] && Hex(a)[1] == Hex(b)[1];
      HexDigitInjective(a[0] as nat / 16, b[0] as nat / 16);
      HexDigitInjective(a[0] as nat % 16, b[0] as nat % 16);
      assert Hex(a)[2..] == Hex(a[1..]) && Hex(b)[2..] == Hex(b[1..]);
      HexInjective(a[1..], b[1..]);
      assert a == [a[0]] + a[1..] && b == [b[0]] + b[1..];
    }
  }

  // ---- The chain ----

  function Unsigned<T>(e: Entry<T>): Entry<T> {
    e.(entryHash := "")
  }

  /** The bytes that are hashed: the previous hash, then the event with its own hash empty. */
  function DigestInput<T>(e: Entry<T>, codec: Codec<T>): seq<byte> {
    Encode(e.previousHash) + Encode(codec.serialize(Unsigned(e)))
  }

  function Digest<T>(e: Entry<T>, codec: Codec<T>): string {
    Hex(codec.sha256(DigestInput(e, codec)))
  }

  /** `saturating_add(1)` from zero, `i` times. */
  function Saturated(i: nat): nat {
    if i < U64_MAX then i else U64_MAX
  }

  function LastHash<T>(entries: seq<Entry<T>>): string {
    if entries == [] then "" else entries[|entries| - 1].entryHash
  }

  ghost predicate Linked<T>(entries: seq<Entry<T>>, i: nat, codec: Codec<T>)
    requires i < |entries|
  {
    && entries[i].seqNo == Saturated(i)
    && entries[i].previousHash == LastHash(entries[..i])
    && entries[i].entryHash == Digest(entries[i], codec)
  }

  /** The chains `verify` accepts: numbered from zero, each event carrying the hash of the one
      before it and its own. */
  ghost predicate Chain<T>(entries: seq<Entry<T>>, codec: Codec<T>) {
    forall i | 0 <= i < |entries| :: Linked(entries, i, codec)
  }

  lemma ChainPrefix<T>(entries: seq<Entry<T>>, n: nat, codec: Codec<T>)
    requires Chain(entries, codec) && n <= |entries|
    ensures Chain(entries[..n], codec)
  {
    forall i | 0 <= i < n
      ensures Linked(entries[..n], i, codec)
    {
      assert Linked(entries, i, codec);
      assert entries[..n][..i] == entries[..i];
    }
  }

  lemma ChainSnoc<T>(entries: seq<Entry<T>>, e: Entry<T>, codec: Codec<T>)
    requires Chain(entries, codec)
    requires e.seqNo == Saturated(|entries|) && e.previousHash == LastHash(entries) && e.entryHash == Digest(e, codec)
    ensures Chain(entries + [e], codec)
  {
    var longer := entries + [e];
    forall i | 0 <= i < |longer|
      ensures Linked(longer, i, codec)
    {
      if i < |entries| {
        assert Linked(entries, i, codec);
        assert longer[..i] == entries[..i];
      } else {
        assert longer[..i] == entries;
      }
    }
  }

  // ---- Tamper evidence ----

  /** A text without braces followed by an object splits at the first brace in one way only. */
  lemma SplitAtBrace(a: string, x: string, b: string, y: string)
    requires '{' !in a && '{' !in b && x != "" && y != "" && x[0] == '{' && y[0] == '{'
    requires a + x == b + y
    ensures a == b && x == y
  {
    assert (a + x)[|a|] == '{' && (b + y)[|b|] == '{';
    assert (a + x)[..|a|] == a && (b + y)[..|b|] == b;
    assert (a + x)[|a|..] == x && (b + y)[|b|..] == y;
  }

  /** The hashed bytes determine the event and the hash before it. */
  lemma DigestInputInjective<T(!new)>(e: Entry<T>, f: Entry<T>, codec: Codec<T>)
    requires Faithful(codec)
    requires e.seqNo <= U64_MAX && f.seqNo <= U64_MAX
    requires '{' !in e.previousHash && '{' !in f.previousHash
    requires DigestInput(e, codec) == DigestInput(f, codec)
    ensures Unsigned(e) == Unsigned(f)
  {
    var x, y := codec.serialize(Unsigned(e)), codec.serialize(Unsigned(f));
    EncodeAppend(e.previousHash, x);
    EncodeAppend(f.previousHash, y);
    EncodeInjective(e.previousHash + x, f.previousHash + y);
    assert IsObjectLine(x) && IsObjectLine(y);
    SplitAtBrace(e.previousHash, x, f.previousHash, y);
    assert Some(Unsigned(e)) == codec.parse(x) == Some(Unsigned(f));
  }

  /** The hash before an event is empty for the first one, and 64 hexadecimal digits after that. */
  lemma PreviousHashShape<T(!new)>(entries: seq<Entry<T>>, codec: Codec<T>)
    requires Faithful(codec) && Chain(entries, codec) && entries != []
    ensures var e := entries[|entries| - 1]; '{' !in e.previousHash && (e.previousHash == "" <==> |entries| == 1)
    ensures entries[|entries| - 1].previousHash == LastHash(entries[..|entries| - 1])
  {
    var n := |entries| - 1;
    assert Linked(entries, n, codec);
    if n > 0 {
      assert Linked(entries, n - 1, codec);
      assert entries[..n][n - 1] == entries[n - 1];
      HexNoBrace(codec.sha256(DigestInput(entries[n - 1], codec)));
    }
  }

  lemma SameLastEntry<T(!new)>(a: seq<Entry<T>>, b: seq<Entry<T>>, codec: Codec<T>)
    requires Faithful(codec) && Chain(a, codec) && Chain(b, codec)
    requires a != [] && b != [] && LastHash(a) == LastHash(b)
    requires DigestInput(a[|a| - 1], codec) == DigestInput(b[|b| - 1], codec)
    ensures a[|a| - 1] == b[|b| - 1] && (|a| == 1 <==> |b| == 1)
    ensures LastHash(a[..|a| - 1]) == LastHash(b[..|b| - 1])
  {
    assert Linked(a, |a| - 1, codec) && Linked(b, |b| - 1, codec);
    PreviousHashShape(a, codec);
    PreviousHashShape(b, codec);
    DigestInputInjective(a[|a| - 1], b[|b| - 1], codec);
  }

  lemma SnocEqual<T>(a: seq<T>, b: seq<T>)
    requires a != [] && b != [] && a[|a| - 1] == b[|b| - 1]
    ensures a[..|a| - 1] == b[..|b| - 1] ==> a == b
    ensures |a| == 1 && |b| == 1 ==> a == b
  {
    assert a == a[..|a| - 1] + [a[|a| - 1]] && b == b[..|b| - 1] + [b[|b| - 1]];
  }

  /** Two nonempty accepted logs with the same final hash are the same log, or else `x` and `y`
      are two distinct byte strings with the same SHA-256 digest. */
  lemma {:induction false} TamperEvidence<T(!new)>(a: seq<Entry<T>>, b: seq<Entry<T>>, codec: Codec<T>)
    returns (x: seq<byte>, y: seq<byte>)
    requires Faithful(codec) && Chain(a, codec) && Chain(b, codec)
    requires a != [] && b != [] && LastHash(a) == LastHash(b)
    ensures a == b || (x != y && codec.sha256(x) == codec.sha256(y))
    decreases |a|
  {
    var n, m := |a| - 1, |b| - 1;
    x, y := DigestInput(a[n], codec), DigestInput(b[m], codec);
    if x != y {
      assert Linked(a, n, codec) && Linked(b, m, codec);
      HexInjective(codec.sha256(x), codec.sha256(y));
    } else {
      SameLastEntry(a, b, codec);
      if n > 0 {
        ChainPrefix(a, n, codec);
        ChainPrefix(b, m, codec);
        x, y := TamperEvidence(a[..n], b[..m], codec);
      }
      SnocEqual(a, b);
    }
  }
}
