/** The RC4 stream cipher of the boot ROM: key setup, keystream, and the cipher in place. */
module Rc4 {
  import opened Words

  /** 256 distinct bytes, every byte among them. */
  predicate IsPermutation(s: seq<u8>) {
    && |s| == 256
    && (forall i, j :: 0 <= i < j < 256 ==> s[i] != s[j])
    && (forall v: u8 :: v in s)
  }

  function Swap(s: seq<u8>, i: nat, j: nat): seq<u8>
    requires i < |s| && j < |s|
  {
    s[i := s[j]][j := s[i]]
  }

  lemma SwapKeepsPermutation(s: seq<u8>, i: nat, j: nat)
    requires IsPermutation(s) && i < 256 && j < 256
    ensures IsPermutation(Swap(s, i, j))
  {
    var r := Swap(s, i, j);
    forall v: u8 ensures v in r {
      assert v in s;
      var k :| 0 <= k < |s| && s[k] == v;
      assert r[if k == i then j else if k == j then i else k] == v;
    }
  }

  function Identity(): (s: seq<u8>)
    ensures |s| == 256 && forall i :: 0 <= i < 256 ==> s[i] == i
  {
    seq(256, i requires 0 <= i < 256 => i)
  }

  lemma IdentityIsPermutation()
    ensures IsPermutation(Identity())
  {
    forall v: u8 ensures v in Identity() { assert Identity()[v] == v; }
  }

  // ---- Key setup ----

  datatype Setup = Setup(s: seq<u8>, j: u8)

  function Scheduled(key: seq<u8>, rounds: nat): (r: Setup)
    requires key != [] && rounds <= 256
    ensures |r.s| == 256
  {
    if rounds == 0 then Setup(Identity(), 0)
    else
      var p, i := Scheduled(key, rounds - 1), rounds - 1;
      var j: u8 := (p.j as int + p.s[i] + key[i % |key|]) % 256;
      Setup(Swap(p.s, i, j), j)
  }

  /** Key setup starts from the identity with j = 0; one round moves j on by S[i] and the key byte for i, the key
      repeating, and S[i] and S[j] change places. */
  lemma SetupRound(key: seq<u8>, i: nat, laps: nat, at: nat, x: nat)
    requires i == |key| * laps + at && at < |key| && i < 256 && x < 256
    ensures Scheduled(key, 0).s[x] == x && Scheduled(key, 0).j == 0
    ensures var p, r := Scheduled(key, i), Scheduled(key, i + 1);
      && (r.j - p.j - p.s[i] - key[at]) % 256 == 0
      && r.s[x] == if x == i then p.s[r.j] else if x == r.j then p.s[i] else p.s[x]
  {
    hide Scheduled;
    assert i % |key| == at by { Unique(i, |key|, laps, at); }
    OneRound(key, i, key[at], x);
    NoRound(key, x);
  }

  lemma NoRound(key: seq<u8>, x: nat)
    requires key != [] && x < 256
    ensures Scheduled(key, 0).s[x] == x && Scheduled(key, 0).j == 0
  {
  }

  lemma OneRound(key: seq<u8>, i: nat, k: u8, x: nat)
    requires key != [] && i < 256 && x < 256 && k == key[i % |key|]
    ensures var p, r := Scheduled(key, i), Scheduled(key, i + 1);
      && (r.j - p.j - p.s[i] - k) % 256 == 0
      && r.s[x] == if x == i then p.s[r.j] else if x == r.j then p.s[i] else p.s[x]
  {
    CongruentSum(Scheduled(key, i).j as int + Scheduled(key, i).s[i] + k);
  }

  lemma CongruentSum(x: int)
    ensures (x % 256 - x) % 256 == 0
  {
  }

  lemma {:induction false} SetupIsPermutation(key: seq<u8>, rounds: nat)
    requires key != [] && rounds <= 256
    ensures IsPermutation(Scheduled(key, rounds).s)
  {
    hide IsPermutation, Swap;
    if rounds == 0 {
      IdentityIsPermutation();
    } else {
      SetupIsPermutation(key, rounds - 1);
      SwapKeepsPermutation(Scheduled(key, rounds - 1).s, rounds - 1, Scheduled(key, rounds).j);
    }
  }

  // ---- Keystream ----

  datatype Generator = Generator(s: seq<u8>, i: u8, j: u8)

  /** The generator after n bytes. No data enters it. */
  function Generated(key: seq<u8>, n: nat): (g: Generator)
    requires key != []
    ensures |g.s| == 256
  {
    if n == 0 then Generator(Scheduled(key, 256).s, 0, 0)
    else
      var p := Generated(key, n - 1);
      var i: u8 := (p.i as int + 1) % 256;
      var j: u8 := (p.j as int + p.s[i]) % 256;
      Generator(Swap(p.s, i, j), i, j)
  }

  lemma {:induction false} GeneratorIsPermutation(key: seq<u8>, n: nat)
    requires key != []
    ensures IsPermutation(Generated(key, n).s)
  {
    hide IsPermutation, Swap;
    if n == 0 {
      SetupIsPermutation(key, 256);
    } else {
      GeneratorIsPermutation(key, n - 1);
      var g := Generated(key, n);
      SwapKeepsPermutation(Generated(key, n - 1).s, g.i, g.j);
    }
  }

  /** Byte n of the keystream. */
  function Keystream(key: seq<u8>, n: nat): bv8
    requires key != []
  {
    var g := Generated(key, n + 1);
    g.s[(g.s[g.i] as int + g.s[g.j]) % 256] as bv8
  }

  /** One byte of the generator: i moves on by one, j by S[i], and the two values change places. */
  lemma GeneratorStep(key: seq<u8>, n: nat, x: nat)
    requires key != [] && x < 256
    ensures var p, g := Generated(key, n), Generated(key, n + 1);
      && (g.i - p.i - 1) % 256 == 0 && (g.j - p.j - p.s[g.i]) % 256 == 0
      && g.s[x] == if x == g.i then p.s[g.j] else if x == g.j then p.s[g.i] else p.s[x]
    ensures Generated(key, 0).s == Scheduled(key, 256).s && Generated(key, 0).i == Generated(key, 0).j == 0
  {
    hide Scheduled;
    var p := Generated(key, n);
    CongruentSum(p.i as int + 1);
    CongruentSum(p.j as int + p.s[(p.i as int + 1) % 256]);
  }

  /** The byte is that at the sum of the two values. */
  lemma KeystreamByte(key: seq<u8>, n: nat)
    requires key != []
    ensures var g := Generated(key, n + 1);
      Keystream(key, n) == g.s[(g.s[g.j] + g.s[g.i] as int) % 0x100] as bv8
  {
    hide Generated;
  }

  function Mix(d: bv8, k: bv8): bv8 { d ^ k }

  function Crypted(key: seq<u8>, data: seq<bv8>): (r: seq<bv8>)
    requires key != []
    ensures |r| == |data|
  {
    if data == [] then []
    else
      var n := |data| - 1;
      Crypted(key, data[..n]) + [Mix(data[n], Keystream(key, n))]
  }

  /** Byte n is masked with byte n of the keystream. */
  lemma {:induction false} CryptedByte(key: seq<u8>, data: seq<bv8>, n: nat)
    requires key != [] && n < |data|
    ensures Crypted(key, data)[n] == Mix(data[n], Keystream(key, n))
    decreases |data|
  {
    hide Keystream, Mix;
    if n < |data| - 1 { CryptedByte(key, data[..|data| - 1], n); }
  }

  /** Encryption is decryption, and the same key maps different data to different data. */
  lemma CryptUndoesItself(key: seq<u8>, data: seq<bv8>)
    requires key != []
    ensures Crypted(key, Crypted(key, data)) == data
  {
    var once := Crypted(key, data);
    forall n | 0 <= n < |data| ensures Crypted(key, once)[n] == data[n] {
      CryptedByte(key, data, n);
      CryptedByte(key, once, n);
      XorTwice(data[n], Keystream(key, n));
    }
  }

  lemma XorTwice(d: bv8, k: bv8)
    ensures Mix(Mix(d, k), k) == d
  {
  }

  /** What follows in the data does not change what comes before. */
  lemma PrefixCrypts(key: seq<u8>, data: seq<bv8>, more: seq<bv8>)
    requires key != []
    ensures Crypted(key, data + more)[..|data|] == Crypted(key, data)
  {
    forall n | 0 <= n < |data| ensures Crypted(key, data + more)[n] == Crypted(key, data)[n] {
      CryptedByte(key, data, n);
      CryptedByte(key, data + more, n);
    }
  }

  // ---- In place ----

  method SwapInPlace(s: array<u8>, i: nat, j: nat)
    requires s.Length == 256 && i < 256 && j < 256
    modifies s
    ensures s[..] == Swap(old(s[..]), i, j)
  {
    var tmp := s[i];
    s[i] := s[j];
    s[j] := tmp;
  }

  /** The key setup of rc4_crypt. */
  method Schedule(key: seq<u8>) returns (s: array<u8>)
    requires key != []
    ensures fresh(s) && s[..] == Scheduled(key, 256).s
  {
    hide Swap;
    s := new u8[256](i requires 0 <= i < 256 => i);
    assert s[..] == Identity();
    var j: u8 := 0;
    for i := 0 to 256
      invariant s[..] == Scheduled(key, i).s && j == Scheduled(key, i).j
    {
      j := (j as int + s[i] + key[i % |key|]) % 256;
      SwapInPlace(s, i, j);
    }
  }

  /** One turn of the generator. */
  method NextByte(s: array<u8>, i: u8, j: u8, ghost key: seq<u8>, ghost n: nat) returns (i': u8, j': u8, k: bv8)
    requires s.Length == 256 && key != [] && Generated(key, n) == Generator(s[..], i, j)
    modifies s
    ensures Generated(key, n + 1) == Generator(s[..], i', j') && k == Keystream(key, n)
  {
    hide Swap;
    i' := (i as int + 1) % 256;
    j' := (j as int + s[i']) % 256;
    SwapInPlace(s, i', j');
    k := s[(s[i'] as int + s[j']) % 256] as bv8;
  }

  /** The data when the first n bytes are done. */
  function Progress(key: seq<u8>, data: seq<bv8>, n: nat): (r: seq<bv8>)
    requires key != [] && n <= |data|
    ensures |r| == |data|
  {
    Crypted(key, data[..n]) + data[n..]
  }

  lemma ProgressEnds(key: seq<u8>, data: seq<bv8>)
    requires key != []
    ensures Progress(key, data, 0) == data && Progress(key, data, |data|) == Crypted(key, data)
  {
    hide Keystream, Mix;
    SliceAll(data);
  }

  lemma SliceAll<T>(s: seq<T>)
    ensures s[..|s|] == s && s[|s|..] == [] && s[..0] == [] && s[0..] == s
  {
  }

  lemma ProgressMade(key: seq<u8>, data: seq<bv8>, n: nat)
    requires key != [] && n < |data|
    ensures Progress(key, data, n)[n] == data[n]
    ensures Progress(key, data, n + 1) == Progress(key, data, n)[n := Mix(data[n], Keystream(key, n))]
  {
    hide Keystream, Mix;
    OneMore(data, n);
    Replace(Crypted(key, data[..n]), data, n, Mix(data[n], Keystream(key, n)));
  }

  lemma OneMore<T>(s: seq<T>, n: nat)
    requires n < |s|
    ensures s[..n + 1][..n] == s[..n] && s[..n + 1][n] == s[n]
  {
  }

  lemma Replace<T>(done: seq<T>, s: seq<T>, n: nat, x: T)
    requires n < |s| && |done| == n
    ensures (done + [x]) + s[n + 1..] == (done + s[n..])[n := x] && (done + s[n..])[n] == s[n]
  {
  }

  method MaskByte(data: array<bv8>, n: nat, k: bv8)
    requires n < data.Length
    modifies data
    ensures data[..] == old(data[..])[n := Mix(old(data[n]), k)]
  {
    hide Mix;
    data[n] := Mix(data[n], k);
  }

  /** rc4_crypt. */
  method Crypt(key: seq<u8>, data: array<bv8>)
    requires key != []
    modifies data
    ensures data[..] == Crypted(key, old(data[..]))
  {
    hide Keystream, Generated, Scheduled, Mix, Crypted, Progress;
    ghost var before := data[..];
    var s := Schedule(key);
    var i: u8, j: u8 := 0, 0;
    GeneratorStart(key);
    ProgressEnds(key, before);
    for n := 0 to data.Length
      invariant Generated(key, n) == Generator(s[..], i, j)
      invariant data[..] == Progress(key, before, n)
    {
      var b: bv8;
      i, j, b := NextByte(s, i, j, key, n);
      ProgressMade(key, before, n);
      MaskByte(data, n, b);
    }
  }

  lemma GeneratorStart(key: seq<u8>)
    requires key != []
    ensures Generated(key, 0) == Generator(Scheduled(key, 256).s, 0, 0)
  {
  }
}
