/** The hash chain as values: iterated hashing of a seed, the list
    `generate_hash_chain` builds before it reverses it, and the shape of the
    list after `k` rounds have popped from it. */
module Chain {
  import opened Types
  import opened Hex

  /** `hashlib.sha256(s.encode()).hexdigest()`. */
  function Step(sha: Sha256, s: string): (d: string)
    ensures |d| == 64 && IsLowerHexString(d)
  {
    BytesToHex(sha(s))
  }

  /** `Step` applied `k` times to `s`. */
  function Iter(sha: Sha256, s: string, k: nat): (d: string)
    ensures k == 0 ==> d == s
    ensures k > 0 ==> |d| == 64 && IsLowerHexString(d)
  {
    if k == 0 then s else Step(sha, Iter(sha, s, k - 1))
  }

  /** The list in generation order: `[H(seed), H(H(seed)), ..., H^n(seed)]`. */
  function Forward(sha: Sha256, seed: string, n: nat): (f: seq<string>)
    ensures |f| == n
  {
    if n == 0 then [] else Forward(sha, seed, n - 1) + [Iter(sha, seed, n)]
  }

  /** The chain once `k` of its `n` elements have been popped:
      `[H^n(seed), H^(n-1)(seed), ..., H^(k+1)(seed)]`. */
  function Descending(sha: Sha256, seed: string, k: nat, n: nat): seq<string>
    requires k <= n
  {
    seq(n - k, j requires 0 <= j < n - k => Iter(sha, seed, n - j))
  }

  /** `list.reverse()` as a value. */
  function Reversed<T>(s: seq<T>): (r: seq<T>)
    ensures |r| == |s|
  {
    if s == [] then [] else [s[|s| - 1]] + Reversed(s[..|s| - 1])
  }

  lemma {:induction false} ReversedAt<T>(s: seq<T>, j: nat)
    requires j < |s|
    ensures |Reversed(s)| == |s|
    ensures Reversed(s)[j] == s[|s| - 1 - j]
    decreases |s|
  {
    if j > 0 {
      ReversedAt(s[..|s| - 1], j - 1);
    }
  }

  /** After `i` rounds of the generating loop, element `k` is
      `H^(k+1)(seed)`. */
  lemma {:induction false} ForwardAt(sha: Sha256, seed: string, n: nat, k: nat)
    requires k < n
    ensures |Forward(sha, seed, n)| == n
    ensures Forward(sha, seed, n)[k] == Iter(sha, seed, k + 1)
    decreases n
  {
    var prev := Forward(sha, seed, n - 1);
    assert Forward(sha, seed, n) == prev + [Iter(sha, seed, n)];
    if k < n - 1 {
      ForwardAt(sha, seed, n - 1, k);
      assert (prev + [Iter(sha, seed, n)])[k] == prev[k];
    }
  }

  /** The freshly generated and reversed chain is the chain with no round
      played yet: element `j` is `H^(n-j)(seed)`. */
  lemma {:induction false} FreshChainIsDescending(sha: Sha256, seed: string, n: nat)
    ensures Reversed(Forward(sha, seed, n)) == Descending(sha, seed, 0, n)
  {
    var f := Forward(sha, seed, n);
    var d := Descending(sha, seed, 0, n);
    forall j | 0 <= j < n
      ensures Reversed(f)[j] == d[j]
    {
      ReversedAt(f, j);
      ForwardAt(sha, seed, n, n - 1 - j);
    }
  }

  /** The positions of the freshly generated chain, stated one by one:
      its first element is `H^n(seed)`, its last `H(seed)`, and every element
      is the hash of the one after it. */
  lemma FreshChainLinks(sha: Sha256, seed: string, n: nat)
    ensures |Reversed(Forward(sha, seed, n))| == n
    ensures n > 0 ==> Reversed(Forward(sha, seed, n))[0] == Iter(sha, seed, n)
    ensures n > 0 ==> Reversed(Forward(sha, seed, n))[n - 1] == Step(sha, seed)
    ensures forall j :: 0 <= j < n - 1 ==>
      Reversed(Forward(sha, seed, n))[j] == Step(sha, Reversed(Forward(sha, seed, n))[j + 1])
  {
  }

  /** One round on a chain in which `k` of `n` rounds were played takes
      `H^(k+1)(seed)` from the end and leaves the chain of `k + 1` rounds;
      a chain with every round played is empty. */
  lemma PopDescending(sha: Sha256, seed: string, k: nat, n: nat)
    requires k <= n
    ensures |Descending(sha, seed, k, n)| == n - k
    ensures Descending(sha, seed, k, n) == [] <==> k == n
    ensures k < n ==> Descending(sha, seed, k, n)[n - k - 1] == Iter(sha, seed, k + 1)
    ensures k < n ==> Descending(sha, seed, k, n)[..n - k - 1] == Descending(sha, seed, k + 1, n)
  {
  }
}
