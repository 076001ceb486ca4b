/** The `CrashGame` object: it builds the hash chain once, from a seed block
    hash, and each round pops the next element, combines it with a fresh
    block hash and derives that round's crash point. */
module Game {
  import opened Types
  import opened Hex
  import opened Chain
  import opened Crash

  /** What `play_game` returns for a chain element and a block hash, before
      rounding: the crash point of `H(element + blockHash)`. Going through
      the hex text of the round hash and back loses nothing, so the
      derivation never fails on a round hash. */
  function RoundCrashPoint(sha: Sha256, hmac: HmacSha256, rtp: real,
                           element: string, blockHash: string): (r: real)
    ensures CalculateCrashPoint(hmac, Step(sha, element + blockHash), rtp) == Ok(r)
    ensures 1.0 <= r <= CrashFormula(0, rtp)
  {
    var tag := sha(element + blockHash);
    FromHexOfBytesToHex(tag);
    CrashAnti(0, TagValue(hmac(tag, [])), rtp);
    CrashFormula(TagValue(hmac(tag, [])), rtp)
  }

  class CrashGame {
    /** The hashing primitives the game calls into, and its return-to-player
        fraction, which the Python program never validates. */
    const sha: Sha256
    const hmac: HmacSha256
    const rtp: real

    /** The reversed hash chain; rounds pop from its end. */
    var hashChain: seq<string>

    /** The session the chain was built for: its seed, its length and the
        number of rounds played since. */
    ghost var seed: string
    ghost var length: nat
    ghost var played: nat

    /** After `played` rounds the chain holds `H^length(seed)` down to
        `H^(played+1)(seed)`. */
    ghost predicate Valid()
      reads this
    {
      played <= length && hashChain == Descending(sha, seed, played, length)
    }

    /** `CrashGame(rtp_val)`: starts from an empty chain and generates it from
        `blockHash`, which stands for the fetched latest block hash. */
    constructor (sha: Sha256, hmac: HmacSha256, rtp: real, blockHash: string, length: nat)
      ensures this.sha == sha && this.hmac == hmac && this.rtp == rtp
      ensures hashChain == Reversed(Forward(sha, blockHash, length))
      ensures seed == blockHash && this.length == length && played == 0
      ensures Valid()
    {
      this.sha := sha;
      this.hmac := hmac;
      this.rtp := rtp;
      hashChain := [];
      new;
      GenerateHashChain(blockHash, length);
      FreshChainIsDescending(sha, blockHash, length);
      seed := blockHash;
      this.length := length;
      played := 0;
    }

    /** `generate_hash_chain`: appends `H(seed)`, ..., `H^length(seed)` to the
        chain already there, then reverses the whole list in place. */
    method GenerateHashChain(seed: string, length: nat)
      modifies this`hashChain
      ensures hashChain == Reversed(old(hashChain) + Forward(sha, seed, length))
      ensures old(hashChain) == [] ==> hashChain == Reversed(Forward(sha, seed, length))
    {
      var current := seed;
      var i := 0;
      while i < length
        invariant i <= length
        invariant hashChain == old(hashChain) + Forward(sha, seed, i)
        invariant current == Iter(sha, seed, i)
      {
        var next := Step(sha, current);
        hashChain := hashChain + [next];
        current := next;
        i := i + 1;
      }
      assert old(hashChain) == [] ==> hashChain == Forward(sha, seed, length);
      hashChain := Reversed(hashChain);
    }

    /** `self.hash_chain.pop()`: removes and returns the last element; on an
        empty chain Python raises, which is chain exhaustion. */
    method Pop() returns (r: Outcome<string>)
      modifies this`hashChain
      ensures old(hashChain) == [] ==> r == Err(ChainExhausted) && hashChain == []
      ensures old(hashChain) != [] ==>
        r == Ok(old(hashChain)[|old(hashChain)| - 1]) &&
        hashChain == old(hashChain)[..|old(hashChain)| - 1]
    {
      if hashChain == [] {
        r := Err(ChainExhausted);
      } else {
        r := Ok(hashChain[|hashChain| - 1]);
        hashChain := hashChain[..|hashChain| - 1];
      }
    }

    /** `play_game`, with the round's block hash as a parameter: pops the next
        element, hashes it together with the block hash and derives the crash
        point from that round hash. On a chain built by the constructor the
        k-th round consumes `H^k(seed)`, and only `length` rounds succeed. */
    method PlayGame(blockHash: string) returns (r: Outcome<real>)
      modifies this`hashChain, this`played
      ensures old(hashChain) == [] ==>
        r == Err(ChainExhausted) && hashChain == [] && played == old(played)
      ensures old(hashChain) != [] ==>
        r == Ok(RoundCrashPoint(sha, hmac, rtp, old(hashChain)[|old(hashChain)| - 1], blockHash)) &&
        hashChain == old(hashChain)[..|old(hashChain)| - 1] &&
        played == old(played) + 1
      ensures old(Valid()) ==> Valid()
      ensures old(Valid()) ==> (r.Ok? <==> old(played) < length)
      ensures old(Valid()) && old(played) < length ==>
        r == Ok(RoundCrashPoint(sha, hmac, rtp, Iter(sha, seed, played), blockHash))
    {
      ghost var wasValid, k := Valid(), played;
      var popped := Pop();
      if popped.Err? {
        r := Err(popped.error);
        if wasValid {
          PopDescending(sha, seed, k, length);
        }
      } else {
        var element := popped.value;
        played := played + 1;
        var gameHash := Step(sha, element + blockHash);
        r := CalculateCrashPoint(hmac, gameHash, rtp);
        assert r == Ok(RoundCrashPoint(sha, hmac, rtp, element, blockHash));
        if wasValid {
          PopDescending(sha, seed, k, length);
          assert element == Iter(sha, seed, played);
          assert Valid();
        }
      }
    }
  }

  /** A session over a chain of three elements: the rounds consume
      `H(seed)`, `H(H(seed))` and `H(H(H(seed)))` in that order, and a fourth
      round finds the chain exhausted. */
  method ThreeRoundSession(sha: Sha256, hmac: HmacSha256, rtp: real, seed: string,
                           b1: string, b2: string, b3: string, b4: string)
    returns (r1: Outcome<real>, r2: Outcome<real>, r3: Outcome<real>, r4: Outcome<real>)
    ensures r1 == Ok(RoundCrashPoint(sha, hmac, rtp, Step(sha, seed), b1))
    ensures r2 == Ok(RoundCrashPoint(sha, hmac, rtp, Step(sha, Step(sha, seed)), b2))
    ensures r3 == Ok(RoundCrashPoint(sha, hmac, rtp, Step(sha, Step(sha, Step(sha, seed))), b3))
    ensures r4 == Err(ChainExhausted)
  {
    var game := new CrashGame(sha, hmac, rtp, seed, 3);
    r1 := game.PlayGame(b1);
    r2 := game.PlayGame(b2);
    r3 := game.PlayGame(b3);
    r4 := game.PlayGame(b4);
  }
}
