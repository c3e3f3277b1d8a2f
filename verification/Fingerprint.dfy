/**
`collect_input_records`: the byte stream that fingerprints the inputs of a manifest.
The file hash is a parameter; what is proved is about the stream fed to the digest.
 */
module Fingerprint {
  import opened Ordering

  newtype Byte = x: int | 0 <= x < 256

  // ----- UTF-8 ----------------------------------------------------------------

  function Utf8Char(c: char): (r: seq<Byte>)
    ensures r != []
  {
    var n := c as int;
    if n < 0x80 then [n as Byte]
    else if n < 0x800 then [(0xC0 + n / 0x40) as Byte, (0x80 + n % 0x40) as Byte]
    else if n < 0x10000 then
      [(0xE0 + n / 0x1000) as Byte, (0x80 + n / 0x40 % 0x40) as Byte, (0x80 + n % 0x40) as Byte]
    else
      [(0xF0 + n / 0x40000) as Byte, (0x80 + n / 0x1000 % 0x40) as Byte,
       (0x80 + n / 0x40 % 0x40) as Byte, (0x80 + n % 0x40) as Byte]
  }

  function Utf8(s: string): seq<Byte> {
    if s == "" then [] else Utf8Char(s[0]) + Utf8(s[1..])
  }

  /** The first byte tells the length, and the bytes give back the character. */
  function Decode(b: seq<Byte>): int
    requires b != []
  {
    var h := b[0] as int;
    if h < 0xC0 then h
    else if h < 0xE0 then (if |b| < 2 then 0 else (h - 0xC0) * 0x40 + (b[1] as int - 0x80))
    else if h < 0xF0 then
      (if |b| < 3 then 0 else (h - 0xE0) * 0x1000 + (b[1] as int - 0x80) * 0x40 + (b[2] as int - 0x80))
    else
      (if |b| < 4 then 0
       else (h - 0xF0) * 0x40000 + (b[1] as int - 0x80) * 0x1000 + (b[2] as int - 0x80) * 0x40 + (b[3] as int - 0x80))
  }

  lemma DecodeChar(c: char, rest: seq<Byte>)
    ensures Decode(Utf8Char(c) + rest) == c as int
  {
    var n := c as int;
    var b := Utf8Char(c) + rest;
    assert forall k :: 0 <= k < |Utf8Char(c)| ==> b[k] == Utf8Char(c)[k];
    if n < 0x80 {
    } else if n < 0x800 {
      Digits(n);
    } else if n < 0x10000 {
      Digits(n);
      Digits(n / 0x40);
      assert n / 0x40 / 0x40 == n / 0x1000;
    } else {
      Digits(n);
      Digits(n / 0x40);
      Digits(n / 0x1000);
      assert n / 0x40 / 0x40 == n / 0x1000;
      assert n / 0x1000 / 0x40 == n / 0x40000;
    }
  }

  lemma Digits(n: nat)
    ensures n == n / 0x40 * 0x40 + n % 0x40
  {
  }

  lemma {:induction false} Utf8Injective(a: string, b: string)
    requires Utf8(a) == Utf8(b)
    ensures a == b
  {
    hide Utf8Char, Decode;
    if a != "" && b != "" {
      DecodeChar(a[0], Utf8(a[1..]));
      DecodeChar(b[0], Utf8(b[1..]));
      assert a[0] == b[0];
      var n := |Utf8Char(a[0])|;
      assert Utf8(a)[n..] == Utf8(a[1..]) && Utf8(b)[n..] == Utf8(b[1..]);
      Utf8Injective(a[1..], b[1..]);
      assert a == [a[0]] + a[1..] && b == [b[0]] + b[1..];
    }
  }

  lemma CharHasNoNul(c: char)
    requires c != '\0'
    ensures forall k :: 0 <= k < |Utf8Char(c)| ==> Utf8Char(c)[k] != 0
  {
  }

  lemma {:induction false} Utf8HasNoNul(s: string)
    requires '\0' !in s
    ensures 0 !in Utf8(s)
  {
    hide Utf8Char;
    if s != "" {
      assert s[0] in s;
      assert forall c <- s[1..] :: c in s;
      CharHasNoNul(s[0]);
      Utf8HasNoNul(s[1..]);
    }
  }

  // ----- the stream ---------------------------------------------------------------

  datatype Input = Input(path: string, hash: string)
  datatype Entry = Entry(path: string, hash: string, bytes: nat)
  datatype Outcome = Missing(path: string) | Collected(entries: seq<Entry>, stream: seq<Byte>)

  function Chunk(i: Input): seq<Byte> {
    Utf8(i.path) + [0] + Utf8(i.hash) + [0]
  }

  function Stream(inputs: seq<Input>): seq<Byte> {
    if inputs == [] then [] else Chunk(inputs[0]) + Stream(inputs[1..])
  }

  type Files = map<string, seq<Byte>>
  type Hash = seq<Byte> -> string

  function InputsOf(paths: seq<string>, files: Files, hash: Hash): seq<Input>
    requires forall p <- paths :: p in files
  {
    if paths == [] then [] else [Input(paths[0], hash(files[paths[0]]))] + InputsOf(paths[1..], files, hash)
  }

  /** `path.exists()`: nothing exists under a name with a NUL in it. */
  predicate Exists(path: string, files: Files) {
    '\0' !in path && path in files
  }

  /** Either every path is there and is fed to the digest in order, or the first missing one is reported. */
  ghost predicate Collects(paths: seq<string>, files: Files, hash: Hash, r: Outcome) {
    if forall p <- paths :: Exists(p, files) then
      && r.Collected?
      && r.stream == Stream(InputsOf(paths, files, hash))
      && |r.entries| == |paths|
      && (forall k :: 0 <= k < |paths| ==>
            r.entries[k] == Entry(paths[k], hash(files[paths[k]]), |files[paths[k]]|))
    else
      exists k :: 0 <= k < |paths| && r == Missing(paths[k]) && !Exists(paths[k], files) &&
                  forall i :: 0 <= i < k ==> Exists(paths[i], files)
  }

  method FeedDigest(paths: seq<string>, files: Files, hash: Hash) returns (r: Outcome)
    ensures Collects(paths, files, hash, r)
  {
    hide Chunk, Stream;
    var entries, stream := [], [];
    StreamOfNothing();
    for k := 0 to |paths|
      invariant forall i :: 0 <= i < k ==> Exists(paths[i], files)
      invariant |entries| == k
      invariant forall i :: 0 <= i < k ==>
                  entries[i] == Entry(paths[i], hash(files[paths[i]]), |files[paths[i]]|)
      invariant stream == Stream(InputsOf(paths[..k], files, hash))
    {
      if !Exists(paths[k], files) {
        return Missing(paths[k]);
      }
      var h := hash(files[paths[k]]);
      entries := entries + [Entry(paths[k], h, |files[paths[k]]|)];
      stream := stream + Chunk(Input(paths[k], h));
      StreamNext(paths, k, files, hash);
    }
    assert paths[..|paths|] == paths;
    r := Collected(entries, stream);
  }

  lemma StreamOfNothing()
    ensures Stream([]) == []
  {
  }

  /** The discovered paths are read once each, in order. */
  ghost predicate CollectsAll(discovered: seq<string>, files: Files, hash: Hash, r: Outcome) {
    TotalOrder(StringLeq) && Collects(Listing(AsSet(discovered), StringLeq), files, hash, r)
  }

  /** `collect_input_records`, from the discovered paths: the set is sorted before it is read. */
  method CollectInputs(discovered: seq<string>, files: Files, hash: Hash) returns (r: Outcome)
    ensures CollectsAll(discovered, files, hash, r)
  {
    hide StringLeq, Collects;
    StringOrder();
    var all := AsSet(discovered);
    var paths := SortSet(all, StringLeq);
    ListingUnique(paths, Listing(all, StringLeq), all, StringLeq);
    r := FeedDigest(paths, files, hash);
  }

  lemma {:induction false} InputsAppend(a: seq<string>, b: string, files: Files, hash: Hash)
    requires b in files && forall p <- a :: p in files
    ensures InputsOf(a + [b], files, hash) == InputsOf(a, files, hash) + [Input(b, hash(files[b]))]
  {
    if a == [] {
      assert a + [b] == [b];
      assert [b][1..] == [];
    } else {
      assert (a + [b])[1..] == a[1..] + [b];
      InputsAppend(a[1..], b, files, hash);
    }
  }

  lemma {:induction false} StreamAppend(a: seq<Input>, i: Input)
    ensures Stream(a + [i]) == Stream(a) + Chunk(i)
  {
    hide Chunk;
    if a == [] {
      assert a + [i] == [i];
      assert [i][1..] == [];
    } else {
      assert (a + [i])[1..] == a[1..] + [i];
      StreamAppend(a[1..], i);
      assert Chunk(a[0]) + (Stream(a[1..]) + Chunk(i)) == Chunk(a[0]) + Stream(a[1..]) + Chunk(i);
    }
  }

  lemma StreamNext(paths: seq<string>, k: nat, files: Files, hash: Hash)
    requires k < |paths| && forall i :: 0 <= i <= k ==> paths[i] in files
    ensures Stream(InputsOf(paths[..k + 1], files, hash)) ==
            Stream(InputsOf(paths[..k], files, hash)) + Chunk(Input(paths[k], hash(files[paths[k]])))
  {
    hide Chunk, InputsOf, Stream;
    assert paths[..k + 1] == paths[..k] + [paths[k]];
    InputsAppend(paths[..k], paths[k], files, hash);
    StreamAppend(InputsOf(paths[..k], files, hash), Input(paths[k], hash(files[paths[k]])));
  }

  // ----- the stream is canonical -----------------------------------------------------

  predicate NulFree(i: Input) {
    '\0' !in i.path && '\0' !in i.hash
  }

  /** Text without a NUL, up to the first NUL, can be read off again. */
  lemma SplitAtNul(a: seq<Byte>, x: seq<Byte>, b: seq<Byte>, y: seq<Byte>)
    requires 0 !in a && 0 !in b && a + [0] + x == b + [0] + y
    ensures a == b && x == y
  {
    var s := a + [0] + x;
    var t := b + [0] + y;
    assert s[|a|] == 0 && t[|b|] == 0;
    assert forall k :: 0 <= k < |a| ==> s[k] == a[k] && a[k] in a;
    assert forall k :: 0 <= k < |b| ==> t[k] == b[k] && b[k] in b;
    assert |a| == |b|;
    assert a == s[..|a|] && b == t[..|b|];
    assert x == s[|a| + 1..] && y == t[|b| + 1..];
  }

  lemma ChunkSplits(i: Input, x: seq<Byte>, j: Input, y: seq<Byte>)
    requires NulFree(i) && NulFree(j) && Chunk(i) + x == Chunk(j) + y
    ensures i == j && x == y
  {
    hide Utf8;
    Utf8HasNoNul(i.path);
    Utf8HasNoNul(i.hash);
    Utf8HasNoNul(j.path);
    Utf8HasNoNul(j.hash);
    var u, v := Utf8(i.hash) + [0] + x, Utf8(j.hash) + [0] + y;
    assert Chunk(i) + x == Utf8(i.path) + [0] + u;
    assert Chunk(j) + y == Utf8(j.path) + [0] + v;
    SplitAtNul(Utf8(i.path), u, Utf8(j.path), v);
    SplitAtNul(Utf8(i.hash), x, Utf8(j.hash), y);
    Utf8Injective(i.path, j.path);
    Utf8Injective(i.hash, j.hash);
  }

  /** The stream determines the list of inputs. */
  lemma {:induction false} StreamInjective(a: seq<Input>, b: seq<Input>)
    requires (forall i <- a :: NulFree(i)) && (forall i <- b :: NulFree(i))
    requires Stream(a) == Stream(b)
    ensures a == b
  {
    hide Chunk, NulFree;
    ChunksNotEmpty(a);
    ChunksNotEmpty(b);
    if a != [] && b != [] {
      assert a[0] in a && b[0] in b;
      ChunkSplits(a[0], Stream(a[1..]), b[0], Stream(b[1..]));
      StreamInjective(a[1..], b[1..]);
      assert a == [a[0]] + a[1..] && b == [b[0]] + b[1..];
    }
  }

  lemma ChunksNotEmpty(a: seq<Input>)
    ensures a != [] ==> Stream(a) != []
  {
    if a != [] {
      assert |Chunk(a[0])| >= 2;
    }
  }

  lemma {:induction false} InputsMembers(paths: seq<string>, files: Files, hash: Hash)
    requires forall p <- paths :: p in files
    ensures forall i :: i in InputsOf(paths, files, hash) <==> i.path in paths && i.hash == hash(files[i.path])
  {
    if paths != [] {
      InputsMembers(paths[1..], files, hash);
      assert paths == [paths[0]] + paths[1..];
    }
  }

  /** A collection succeeds iff every discovered path exists. */
  lemma CollectedIff(discovered: seq<string>, files: Files, hash: Hash, r: Outcome)
    requires CollectsAll(discovered, files, hash, r)
    ensures r.Collected? <==> forall p <- discovered :: Exists(p, files)
  {
    hide StringLeq, Exists, Stream, InputsOf;
    var paths := Listing(AsSet(discovered), StringLeq);
    assert forall p :: p in paths <==> p in AsSet(discovered);
  }

  lemma CollectedStream(discovered: seq<string>, files: Files, hash: Hash, r: Outcome)
    requires CollectsAll(discovered, files, hash, r) && r.Collected?
    ensures var paths := Listing(AsSet(discovered), StringLeq);
            && (forall p <- paths :: p in files && '\0' !in p)
            && r.stream == Stream(InputsOf(paths, files, hash))
  {
    hide StringLeq, Stream, InputsOf;
  }

  /**
  Two collections feed the digest the same bytes iff they found the same paths with the
  same file hashes; the order in which the paths were discovered never shows.
   */
  lemma FingerprintCanonical(a: seq<string>, filesA: Files, r: Outcome, b: seq<string>, filesB: Files, s: Outcome,
                             hash: Hash)
    requires CollectsAll(a, filesA, hash, r) && r.Collected?
    requires CollectsAll(b, filesB, hash, s) && s.Collected?
    requires forall c :: '\0' !in hash(c)
    ensures r.stream == s.stream <==>
            AsSet(a) == AsSet(b) && forall p <- a :: p in filesA && p in filesB && hash(filesA[p]) == hash(filesB[p])
  {
    hide StringLeq, Stream, InputsOf, Collects;
    var x, y := Listing(AsSet(a), StringLeq), Listing(AsSet(b), StringLeq);
    CollectedStream(a, filesA, hash, r);
    CollectedStream(b, filesB, hash, s);
    InputsMembers(x, filesA, hash);
    InputsMembers(y, filesB, hash);
    var i, j := InputsOf(x, filesA, hash), InputsOf(y, filesB, hash);
    if Stream(i) == Stream(j) {
      StreamInjective(i, j);
      forall p
        ensures p in x <==> p in y
        ensures p in x ==> hash(filesA[p]) == hash(filesB[p])
      {
        if p in x {
          assert Input(p, hash(filesA[p])) in j;
        }
        if p in y {
          assert Input(p, hash(filesB[p])) in i;
        }
      }
      assert AsSet(a) == AsSet(b);
    }
    if AsSet(a) == AsSet(b) && forall p <- a :: p in filesA && p in filesB && hash(filesA[p]) == hash(filesB[p]) {
      assert x == y;
      assert forall p <- x :: p in a;
      SameHashesSameInputs(x, filesA, filesB, hash);
    }
  }

  lemma {:induction false} SameHashesSameInputs(paths: seq<string>, filesA: Files, filesB: Files, hash: Hash)
    requires forall p <- paths :: p in filesA && p in filesB && hash(filesA[p]) == hash(filesB[p])
    ensures InputsOf(paths, filesA, hash) == InputsOf(paths, filesB, hash)
  {
    if paths != [] {
      SameHashesSameInputs(paths[1..], filesA, filesB, hash);
    }
  }

  /** Why the existence test matters: with a NUL in a path, one input could pass for two. */
  lemma NulInPathIsAmbiguous(p: string, q: string, h: string, g: string)
    ensures Stream([Input(p + "\0" + h + "\0" + q, g)]) == Stream([Input(p, h), Input(q, g)])
  {
    hide Utf8;
    Utf8WithNul(p, h + "\0" + q);
    Utf8WithNul(h, q);
    assert p + "\0" + h + "\0" + q == p + "\0" + (h + "\0" + q);
    var joined := Input(p + "\0" + h + "\0" + q, g);
    StreamAppend([], joined);
    StreamAppend([], Input(p, h));
    StreamAppend([Input(p, h)], Input(q, g));
    assert [] + [joined] == [joined] && [] + [Input(p, h)] == [Input(p, h)];
    assert [Input(p, h)] + [Input(q, g)] == [Input(p, h), Input(q, g)];
    assert Chunk(joined) == Chunk(Input(p, h)) + Chunk(Input(q, g));
  }

  lemma Utf8WithNul(a: string, b: string)
    ensures Utf8(a + "\0" + b) == Utf8(a) + [0] + Utf8(b)
  {
    Utf8Append(a, "\0" + b);
    assert a + "\0" + b == a + ("\0" + b);
    assert ("\0" + b)[1..] == b;
  }

  lemma {:induction false} Utf8Append(a: string, b: string)
    ensures Utf8(a + b) == Utf8(a) + Utf8(b)
  {
    hide Utf8Char;
    if a == "" {
      assert a + b == b;
    } else {
      assert (a + b)[1..] == a[1..] + b;
      Utf8Append(a[1..], b);
      assert Utf8Char(a[0]) + (Utf8(a[1..]) + Utf8(b)) == Utf8Char(a[0]) + Utf8(a[1..]) + Utf8(b);
    }
  }

  // ----- the bytes themselves ------------------------------------------------------------

  /** Each input adds its path, a NUL, its hash and a NUL. */
  lemma StreamIs(a: seq<Input>, path: string, hash: string)
    ensures Stream([]) == []
    ensures Stream(a + [Input(path, hash)]) == Stream(a) + (Utf8(path) + [0] + Utf8(hash) + [0])
  {
    hide Utf8;
    StreamAppend(a, Input(path, hash));
  }

  lemma {:induction false} InputsAre(paths: seq<string>, files: Files, hash: Hash)
    requires forall p <- paths :: p in files
    ensures |InputsOf(paths, files, hash)| == |paths|
    ensures forall k :: 0 <= k < |paths| ==>
              InputsOf(paths, files, hash)[k].path == paths[k] &&
              InputsOf(paths, files, hash)[k].hash == hash(files[paths[k]])
  {
    if paths != [] {
      InputsAre(paths[1..], files, hash);
    }
  }

  /** ASCII is encoded as itself; other characters start with a byte above and go on with bytes in between. */
  lemma Utf8Shape(c: char)
    ensures c as int < 0x80 ==> Utf8Char(c) == [c as int as Byte]
    ensures c as int >= 0x80 ==>
              && |Utf8Char(c)| == (if c as int < 0x800 then 2 else if c as int < 0x10000 then 3 else 4)
              && Utf8Char(c)[0] >= 0xC0
              && forall k :: 1 <= k < |Utf8Char(c)| ==> 0x80 <= Utf8Char(c)[k] < 0xC0
  {
  }
}
