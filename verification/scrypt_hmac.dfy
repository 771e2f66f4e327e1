/**
 HMAC-SHA256 and the two PBKDF2 functions of xptMiner/scrypt.cpp.
 */
module ScryptHmac {
  import opened ByteStrings
  import opened Words
  import opened Sha2Suite
  import opened Sha2Contexts
  import opened Sha2Hashes

  // ----- the specification (RFC 2104 and section 5.2 of RFC 8018) -----

  /** SHA-256. */
  function Sha(message: seq<bv8>): (r: seq<bv8>)
    ensures |r| == 32
  {
    BothAreSuites();
    DigestBytes(Sha256(), Hash(Sha256(), message))
  }

  const LIMIT: nat := 0x2000_0000

  /** A key as one block: hashed when it is longer, zeros behind it when it is shorter. */
  function KeyBlock(key: seq<bv8>): (r: seq<bv8>)
    ensures |r| == 64
  {
    var k := if |key| > 64 then Sha(key) else key;
    k + Zeros(64 - |k|)
  }

  function Masked(block: seq<bv8>, mask: bv8): (r: seq<bv8>)
    ensures |r| == |block|
  {
    seq(|block|, i requires 0 <= i < |block| => block[i] ^ mask)
  }

  function Hmac(key: seq<bv8>, message: seq<bv8>): (r: seq<bv8>)
    ensures |r| == 32
  {
    Sha(Masked(KeyBlock(key), 0x5c) + Sha(Masked(KeyBlock(key), 0x36) + message))
  }

  /** U_j of block i. */
  function U(password: seq<bv8>, salt: seq<bv8>, i: nat, j: nat): (r: seq<bv8>)
    requires j > 0
    ensures |r| == 32
  {
    if j == 1 then Hmac(password, salt + Counter(i, 4)) else Hmac(password, U(password, salt, i, j - 1))
  }

  function XorBytes(a: seq<bv8>, b: seq<bv8>): (r: seq<bv8>)
    requires |a| == 32 && |b| == 32
    ensures |r| == 32
  {
    seq(32, i requires 0 <= i < 32 => a[i] ^ b[i])
  }

  /** The sum of the first c of them. */
  function T(password: seq<bv8>, salt: seq<bv8>, i: nat, c: nat): (r: seq<bv8>)
    requires c > 0
    ensures |r| == 32
  {
    if c == 1 then U(password, salt, i, 1) else XorBytes(T(password, salt, i, c - 1), U(password, salt, i, c))
  }

  /** A derived key of n blocks. */
  function Pbkdf2(password: seq<bv8>, salt: seq<bv8>, c: nat, n: nat): (r: seq<bv8>)
    requires c > 0
    ensures |r| == 32 * n
  {
    if n == 0 then [] else Pbkdf2(password, salt, c, n - 1) + T(password, salt, n, c)
  }

  /** RFC 2104, for keys of up to one block and for longer ones. */
  lemma HmacIsStandard(key: seq<bv8>, message: seq<bv8>, inner: seq<bv8>, outer: seq<bv8>)
    requires |inner| == 64 && |outer| == 64 && |key| <= 64
    requires forall i :: 0 <= i < 64 ==> inner[i] == (if i < |key| then key[i] else 0) ^ 0x36
    requires forall i :: 0 <= i < 64 ==> outer[i] == (if i < |key| then key[i] else 0) ^ 0x5c
    ensures Hmac(key, message) == Sha(outer + Sha(inner + message))
  {
    hide Sha;
    assert Masked(KeyBlock(key), 0x36) == inner;
    assert Masked(KeyBlock(key), 0x5c) == outer;
  }

  lemma LongKeyIsHashed(key: seq<bv8>, message: seq<bv8>)
    requires |key| > 64
    ensures Hmac(key, message) == Hmac(Sha(key), message)
  {
    hide Sha;
  }

  lemma CounterBytes(i: nat)
    ensures Counter(i, 4) == [(i / 0x100_0000 % 256) as bv8, (i / 0x1_0000 % 256) as bv8, (i / 0x100 % 256) as bv8,
                              (i % 256) as bv8]
  {
    assert i / 0x100 / 0x100 == i / 0x1_0000 && i / 0x1_0000 / 0x100 == i / 0x100_0000;
    assert Counter(i / 0x100_0000, 1) == [(i / 0x100_0000 % 256) as bv8];
    assert Counter(i / 0x1_0000, 2) == Counter(i / 0x100_0000, 1) + [(i / 0x1_0000 % 256) as bv8];
    assert Counter(i / 0x100, 3) == Counter(i / 0x1_0000, 2) + [(i / 0x100 % 256) as bv8];
  }

  /**
   Section 5.2 of RFC 8018, step by step: the first code of block n is that of the salt and INT(n), every other
   one that of the code before, and the codes are added byte by byte.
   */
  lemma Pbkdf2Step(password: seq<bv8>, salt: seq<bv8>, c: nat, n: nat, k: nat)
    requires c > 0 && n > 0 && k < 32
    ensures U(password, salt, n, 1) ==
            Hmac(password, salt + [(n / 0x100_0000 % 256) as bv8, (n / 0x1_0000 % 256) as bv8, (n / 0x100 % 256) as bv8,
                                   (n % 256) as bv8])
    ensures U(password, salt, n, c + 1) == Hmac(password, U(password, salt, n, c))
    ensures T(password, salt, n, 1) == U(password, salt, n, 1)
    ensures T(password, salt, n, c + 1)[k] == T(password, salt, n, c)[k] ^ U(password, salt, n, c + 1)[k]
    ensures Pbkdf2(password, salt, c, 0) == []
    ensures Pbkdf2(password, salt, c, n) == Pbkdf2(password, salt, c, n - 1) + T(password, salt, n, c)
  {
    hide Hmac, Counter;
    CounterBytes(n);
  }

  // ----- contexts -----

  lemma FinalIsSha(message: seq<bv8>)
    requires |message| < LIMIT
    ensures DigestBytes(Sha256(), Blocks(Sha256(), Sha256().h0, CodePadded(Sha256(), message))) == Sha(message)
  {
    hide Blocks, CodePadded, Padded, DigestBytes;
    BoundsOfCounts();
    PaddingIsStandard(Sha256(), message);
  }

  /** sha256_final on a context of SHA-256. */
  method Finish(ctx: Sha2Context<Word>) returns (digest: seq<bv8>)
    requires ctx.Valid() && ctx.s == Sha256() && |ctx.Message()| < LIMIT
    modifies ctx, ctx.block, ctx.h
    ensures digest == Sha(old(ctx.Message()))
  {
    FinalIsSha(ctx.Message());
    hide Blocks, CodePadded, DigestBytes, Sha, Sha256;
    digest := ctx.Final();
  }

  /** sha256_init and a first update. */
  method Started(bytes: seq<bv8>) returns (ctx: Sha2Context<Word>)
    requires |bytes| < LIMIT
    ensures fresh(ctx) && fresh(ctx.block) && fresh(ctx.h) && ctx.Valid() && ctx.s == Sha256() && ctx.Message() == bytes
  {
    assert IsSuite(Sha256()) by { BothAreSuites(); }
    hide Sha256;
    ctx := new Sha2Context(Sha256());
    ctx.Update(bytes);
    assert [] + bytes == bytes;
  }

  /** A key longer than a block is replaced by its hash. */
  method ShortKey(key: seq<bv8>) returns (k: seq<bv8>)
    requires |key| < LIMIT
    ensures |k| <= 64 && KeyBlock(key) == k + Zeros(64 - |k|)
  {
    hide Sha, Sha256;
    k := key;
    if |k| > 64 {
      var c := Started(k);
      k := Finish(c);
    }
  }

  /** memset(pad, mask, 64) and the loop that adds the key. */
  method PadKey(key: seq<bv8>, mask: bv8) returns (pad: seq<bv8>)
    requires |key| <= 64
    ensures pad == Masked(key + Zeros(64 - |key|), mask)
  {
    pad := seq(64, _ => mask);
    var i := 0;
    while i < |key|
      invariant 0 <= i <= |key| && |pad| == 64
      invariant forall k :: 0 <= k < i ==> pad[k] == mask ^ key[k]
      invariant forall k :: i <= k < 64 ==> pad[k] == mask
    {
      pad := pad[i := pad[i] ^ key[i]];
      i := i + 1;
    }
    var block := key + Zeros(64 - |key|);
    forall k | 0 <= k < 64
      ensures pad[k] == block[k] ^ mask
    {
      XorOrder(mask, block[k]);
    }
  }

  lemma XorOrder(a: bv8, b: bv8)
    ensures a ^ b == b ^ a && 0 ^ a == a
  {
  }

  class HmacContext {
    const ictx: Sha2Context<Word>
    const octx: Sha2Context<Word>

    ghost predicate Valid()
      reads this, ictx, ictx.block, ictx.h, octx, octx.block, octx.h
    {
      && ictx != octx && ictx.block != octx.block && ictx.h != octx.h
      && ictx.Valid() && octx.Valid() && ictx.s == Sha256() && octx.s == Sha256()
    }

    /** The context has been given a key and then the bytes fed. */
    ghost predicate Holds(key: seq<bv8>, fed: seq<bv8>)
      reads this, ictx, ictx.block, ictx.h, octx, octx.block, octx.h
    {
      && Valid()
      && ictx.Message() == Masked(KeyBlock(key), 0x36) + fed
      && octx.Message() == Masked(KeyBlock(key), 0x5c)
    }

    /** HMAC_SHA256_Init. */
    constructor (key: seq<bv8>)
      requires |key| < LIMIT
      ensures fresh(ictx) && fresh(ictx.block) && fresh(ictx.h) && fresh(octx) && fresh(octx.block) && fresh(octx.h)
      ensures Holds(key, [])
    {
      hide Sha256, Masked, KeyBlock, Zeros, Sha2Context.Valid;
      var k := ShortKey(key);
      var pad := PadKey(k, 0x36);
      var i := Started(pad);
      var opad := PadKey(k, 0x5c);
      var o := Started(opad);
      ictx, octx := i, o;
      new;
      assert pad == pad + [];
    }

    /** A copy of the whole structure. */
    constructor Copy(other: HmacContext, ghost key: seq<bv8>, ghost fed: seq<bv8>)
      requires other.Holds(key, fed)
      ensures fresh(ictx) && fresh(ictx.block) && fresh(ictx.h) && fresh(octx) && fresh(octx.block) && fresh(octx.h)
      ensures Holds(key, fed)
    {
      hide Sha256, Masked, KeyBlock;
      ictx := new Sha2Context.Copy(other.ictx);
      octx := new Sha2Context.Copy(other.octx);
    }

    /** HMAC_SHA256_Update. */
    method Update(data: seq<bv8>, ghost key: seq<bv8>, ghost fed: seq<bv8>)
      requires Holds(key, fed) && |fed| + |data| < LIMIT
      modifies ictx, ictx.block, ictx.h
      ensures Holds(key, fed + data)
    {
      hide Sha256, Masked, KeyBlock;
      ghost var start := Masked(KeyBlock(key), 0x36);
      ictx.Update(data);
      assert start + fed + data == start + (fed + data);
    }

    /** HMAC_SHA256_Final. */
    method Final(ghost key: seq<bv8>, ghost fed: seq<bv8>) returns (digest: seq<bv8>)
      requires Holds(key, fed) && |fed| < LIMIT - 64
      modifies ictx, ictx.block, ictx.h, octx, octx.block, octx.h
      ensures digest == Hmac(key, fed)
    {
      hide Sha256, Masked, KeyBlock, Sha;
      var ihash := Finish(ictx);
      octx.Update(ihash);
      digest := Finish(octx);
    }
  }

  // ----- key derivation -----

  /** The context after password and salt is copied, given a block number, and finished. */
  method SaltedBlock(pshctx: HmacContext, passwd: seq<bv8>, salt: seq<bv8>, i: nat) returns (u: seq<bv8>)
    requires pshctx.Holds(passwd, salt) && |salt| < LIMIT - 68
    ensures u == Hmac(passwd, salt + Counter(i, 4))
  {
    hide Hmac, KeyBlock, Masked, Sha256;
    var ivec := Counter(i, 4);
    var hctx := new HmacContext.Copy(pshctx, passwd, salt);
    hctx.Update(ivec, passwd, salt);
    u := hctx.Final(passwd, salt + ivec);
  }

  /** HMAC_SHA256_Init and a first update. */
  method Salted(passwd: seq<bv8>, salt: seq<bv8>) returns (pshctx: HmacContext)
    requires |passwd| < LIMIT && |salt| < LIMIT
    ensures pshctx.Holds(passwd, salt)
    ensures fresh(pshctx) && fresh(pshctx.ictx) && fresh(pshctx.ictx.block) && fresh(pshctx.ictx.h)
    ensures fresh(pshctx.octx) && fresh(pshctx.octx.block) && fresh(pshctx.octx.h)
  {
    hide Hmac, KeyBlock, Masked, Sha256;
    pshctx := new HmacContext(passwd);
    pshctx.Update(salt, passwd, []);
    assert [] + salt == salt;
  }

  /** PBKDF2_SHA256_O1: four blocks with one iteration each; the keyed and salted context is copied for each block. */
  method Pbkdf2O1(passwd: seq<bv8>, salt: seq<bv8>) returns (buf: seq<bv8>)
    requires |passwd| == 80 && |salt| == 80
    ensures buf == Pbkdf2(passwd, salt, 1, 4)
  {
    hide Hmac, KeyBlock, Masked, Sha256, Pbkdf2, Counter, HmacContext.Holds;
    var pshctx := Salted(passwd, salt);
    buf := [];
    NoBlocks(passwd, salt);
    var i := 0;
    while i < 4
      invariant i <= 4 && pshctx.Holds(passwd, salt) && buf == Pbkdf2(passwd, salt, 1, i)
    {
      NextBlock(passwd, salt, i);
      var u := SaltedBlock(pshctx, passwd, salt, i + 1);
      buf := buf + u;
      i := i + 1;
    }
  }

  lemma NoBlocks(passwd: seq<bv8>, salt: seq<bv8>)
    ensures Pbkdf2(passwd, salt, 1, 0) == []
  {
  }

  lemma NextBlock(passwd: seq<bv8>, salt: seq<bv8>, i: nat)
    ensures Pbkdf2(passwd, salt, 1, i + 1) == Pbkdf2(passwd, salt, 1, i) + Hmac(passwd, salt + Counter(i + 1, 4))
  {
    hide Hmac, Counter;
  }

  /** PBKDF2_SHA256_O2: one block with c iterations. */
  method Pbkdf2O2(passwd: seq<bv8>, salt: seq<bv8>, c: nat) returns (buf: seq<bv8>)
    requires c > 0 && |passwd| < LIMIT && |salt| < LIMIT - 68
    ensures buf == Pbkdf2(passwd, salt, c, 1)
  {
    hide Hmac, KeyBlock, Masked, Sha256;
    var pshctx := Salted(passwd, salt);
    var u := SaltedBlock(pshctx, passwd, salt, 1);
    var t := u;
    var j := 2;
    while j <= c
      invariant 2 <= j <= c + 1 && u == U(passwd, salt, 1, j - 1) && t == T(passwd, salt, 1, j - 1)
    {
      u := Prf(passwd, u);
      t := XorBytes(t, u);
      j := j + 1;
    }
    buf := [] + t;
    OneBlockKey(passwd, salt, c);
  }

  /** Init, update and final. */
  method Prf(passwd: seq<bv8>, data: seq<bv8>) returns (u: seq<bv8>)
    requires |passwd| < LIMIT && |data| < LIMIT - 64
    ensures u == Hmac(passwd, data)
  {
    hide Hmac, KeyBlock, Masked, Sha256;
    var hctx := Salted(passwd, data);
    u := hctx.Final(passwd, data);
  }

  lemma OneBlockKey(passwd: seq<bv8>, salt: seq<bv8>, c: nat)
    requires c > 0
    ensures Pbkdf2(passwd, salt, c, 1) == [] + T(passwd, salt, 1, c)
  {
    assert Pbkdf2(passwd, salt, c, 0) == [];
  }
}
