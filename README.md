# Provably-fair crash game: a Dafny model

This project models the core of a "crash" betting game (`CrashGame` in
`CoreGame/game.py`) and proves what it promises.

- **Hash chain.** Starting from a seed (a Bitcoin block hash), the game hashes
  the seed with SHA-256 `length` times. It appends every hex digest to a list
  and then reverses that list in place. Each round pops the last element, so
  rounds consume `H(seed)`, `H(H(seed))`, … in generation order.
- **Round hash and crash point.** A round hashes the popped element together
  with a fresh block hash. That round hash, decoded from hex, keys an
  HMAC-SHA256 over an empty message. The first 8 hex digits of the tag are
  read as a number `n`, and the crash point is `max(1, 2^32 / (n + 1) * rtp)`.
- **Settlement.** A bet's multiplier is checked first, then its stake. The bet
  loses exactly when the multiplier exceeds the crash point; a win pays stake
  times multiplier.

SHA-256 and HMAC-SHA256 stay uninterpreted. They are function-typed
parameters (`Types.Sha256`, `Types.HmacSha256`), and the model knows only that
each returns 32 bytes. The hex conversions around them (`hexdigest()`,
`bytes.fromhex` and `int(…, 16)`) are modelled on strings of hex digits, which
is all the game ever passes them. The network fetch of block
hashes becomes parameters: the constructor's `blockHash` seeds the chain, and
`PlayGame`'s `blockHash` is the round's fresh block hash.

Files, one module each: `types.dfy` (bytes, primitives, error outcomes),
`hex.dfy` (hex conversions), `chain.dfy` (the chain as values), `crash.dfy`
(`calculate_crash_point`), `settlement.dfy` (the driver's bet checks) and
`game.dfy` (the `CrashGame` class). `ghost` fields in the class record the
session the chain was built for: seed, length and rounds played. They let
`PlayGame` state which iterate of the seed each round consumes.

Three behaviours of the Python program are worth stating directly:

- The HMAC is keyed with the round hash `H(element + block_hash)` and gets no
  message (`game.py:40`, `:47`). A more common provably-fair scheme keys the
  HMAC with the chain element and uses the block hash as the message; the
  model follows the program.
- Neither `rtp_val` nor the chain length is validated. `rtp` is any real here,
  and a length of 0 gives an empty chain.
- Because of the floor at 1, the crash point is only non-increasing in `n`
  (`CrashAnti`). It decreases strictly only where the floor is not engaged
  (`CrashStrictlyDecreasing`).

## Model

| member | source | states |
|---|---|---|
| Hex.BytesToHex | CoreGame/game.py:34 | `hexdigest()` writes two lowercase hex digits per byte, so 32 bytes become 64 lowercase hex characters |
| Hex.FromHex | CoreGame/game.py:40 | `bytes.fromhex` succeeds exactly on even-length strings of hex digits (either case), yielding half as many bytes; otherwise it is an error |
| Hex.FromHexOfBytesToHex | CoreGame/game.py:40 | decoding a hex digest gives back its bytes, so `bytes.fromhex(game_hash)` is exactly the SHA-256 output of the round |
| Hex.BytesToHexOfFromHex | CoreGame/game.py:40 | conversely, re-encoding what `bytes.fromhex` read from a lowercase even-length hex string gives the string back |
| Hex.HexValue | CoreGame/game.py:41 | definition of `int(s, 16)` as the positional base-16 value, most significant digit first; its contract bounds a `w`-digit value below `16^w`, so the 8-digit prefix lies in `[0, 2^32 - 1]`. `HexValueOfBytes`, `HexValueOfToHexWidth` and `ToHexWidthOfHexValue` state its other properties |
| Hex.HexValueOfBytes | CoreGame/game.py:40-41 | the base-16 value of the hex text of some bytes is their big-endian value |
| Hex.HexValueOfToHexWidth | CoreGame/game.py:41 | every number below `16^w` is the parse of some `w`-digit lowercase string, so the whole range is reachable |
| Hex.ToHexWidthOfHexValue | CoreGame/game.py:41 | a lowercase hex string is recovered from its value and width, so the parse is one-to-one on 8-digit prefixes |
| Chain.Step | CoreGame/game.py:34 | one hashing step yields 64 lowercase hex characters |
| Chain.Iter | CoreGame/game.py:33-36 | definition of `H^k(seed)`, the value of `current_hash` after `k` iterations; its contract says that `H^0` is the seed and every later iterate is 64 lowercase hex characters. `ForwardAt` and `FreshChainLinks` state where the iterates sit in the chain |
| Chain.Forward | CoreGame/game.py:32-36 | definition of the list the loop builds before the reversal, `[H(seed), …, H^n(seed)]`; its contract gives its length `n`, and `ForwardAt` states each position |
| Chain.Reversed | CoreGame/game.py:37 | definition of `list.reverse()` as a value; its contract keeps the length, and `ReversedAt` states each position |
| Chain.ReversedAt | CoreGame/game.py:37 | `list.reverse()` keeps the length and moves element `|s|-1-j` to position `j` |
| Chain.ForwardAt | CoreGame/game.py:32-36 | after `n` iterations of the generating loop the list has `n` elements and element `k` is `H^(k+1)(seed)` |
| Chain.FreshChainIsDescending | CoreGame/game.py:30-37 | after the reversal, element `j` of the chain is `H^(length-j)(seed)` |
| Chain.FreshChainLinks | CoreGame/game.py:30-37 | the reversed chain has `length` elements, its first is `H^length(seed)`, its last `H(seed)`, and every element is the hash of its successor |
| Chain.PopDescending | CoreGame/game.py:47 | after `k` of `n` rounds the chain is empty iff `k == n`; otherwise its last element is `H^(k+1)(seed)` and removing it leaves the chain after `k+1` rounds |
| Crash.TagValue | CoreGame/game.py:40-41 | the first 8 hex digits of the HMAC tag parse to its first four bytes read big-endian, a number below `2^32` |
| Crash.PrefixIsFirstFourBytes | CoreGame/game.py:40-41 | the 8-character hex prefix of a tag is the hex text of its first four bytes, and it parses to their big-endian value |
| Crash.Scaled | CoreGame/game.py:42 | definition of `(2 ** 32 / (int_result + 1)) * rtp_val`, the value before the floor; its contract says that for `rtp > 0` it lies in `(0, 2^32 * rtp]` and for `rtp < 0` it is negative. `ScaledAnti` states its monotonicity |
| Crash.CrashFormula | CoreGame/game.py:42 | the crash point is at least 1 and at least `2^32/(n+1)*rtp`, and it is one of those two |
| Crash.CalculateCrashPoint | CoreGame/game.py:39-43 | `calculate_crash_point` fails exactly when the round hash is not an even-length hex string; otherwise it yields a crash point between 1 and its value at `n = 0` |
| Crash.ScaledAnti | CoreGame/game.py:42 | for `rtp >= 0` the unfloored value `2^32/(n+1)*rtp` does not increase with `n`, and for `rtp > 0` it strictly decreases |
| Crash.CrashAnti | CoreGame/game.py:42 | the crash point is non-increasing in the extracted number, for every `rtp` |
| Crash.CrashStrictlyDecreasing | CoreGame/game.py:42 | where the floor is not engaged the crash point strictly decreases as the extracted number grows |
| Crash.CrashBounds | CoreGame/game.py:42 | the crash point is `>= 1`, equals `2^32/(n+1)*rtp` whenever that is `>= 1`, and is at most `max(1, 2^32*rtp)` |
| Crash.RtpScaling | CoreGame/game.py:42 | when neither result is floored, crash points for two `rtp` values stand in the ratio of those values (and both values are positive) |
| Settlement.Settle | CoreGame/game.py:61-75 | a multiplier below 1 is rejected whatever the stake; otherwise a stake `<= 0` is rejected; otherwise the bet loses iff the multiplier exceeds the crash point, and a win pays exactly stake times multiplier |
| Settlement.WinBounds | CoreGame/game.py:69-74 | a winning payout is at least the stake and at most stake times crash point |
| Settlement.SmallerMultiplierStillWins | CoreGame/game.py:69-74 | a bet that wins still wins with any smaller valid multiplier |
| Settlement.CashOutAtOneAlwaysWins | CoreGame/game.py:61-75 | since every crash point is at least 1, cashing out at 1 with a positive stake always wins back the stake |
| Game.RoundCrashPoint | CoreGame/game.py:45-48 | deriving the crash point from the hex round hash `H(element + block_hash)` never fails, and it yields a value between 1 and the `n = 0` value |
| Game.CrashGame.constructor | CoreGame/game.py:18-22 | construction starts from an empty chain and leaves the reversed chain of `length` iterates of the seed, with no round played |
| Game.CrashGame.GenerateHashChain | CoreGame/game.py:30-37 | the list becomes the reversal of its old contents followed by `H(seed)`, …, `H^length(seed)` |
| Game.CrashGame.Pop | CoreGame/game.py:47 | on an empty chain: exhaustion, nothing changed; otherwise returns the last element and leaves every other element unchanged and in order |
| Game.CrashGame.PlayGame | CoreGame/game.py:45-49 | a round consumes the last element and returns the crash point of `H(element + block_hash)`; on a constructed chain the k-th round consumes `H^k(seed)`, and only `length` rounds succeed before exhaustion |
| Game.ThreeRoundSession | CoreGame/game.py:18-49 | on a chain of length 3 the rounds consume `H(seed)`, `H(H(seed))`, `H(H(H(seed)))` in that order, and a fourth round finds the chain exhausted |

## Left out

- `fetch_block_hash` (`game.py:24-28`) is an HTTP request. The seed block hash and each round's block hash are parameters instead.
- The internals of SHA-256 and HMAC-SHA256 are foreign library code. They are uninterpreted functions that return 32 bytes. `.encode()` is folded into `Types.Sha256`, which takes the string itself.
- The arithmetic of the crash point is exact over `real`, not IEEE-754 double arithmetic, so bit-level parity with the Python program is not claimed.
- `round(crash_point, 2)` in `play_game` (`game.py:49`) is floating-point presentation and is not modelled. `PlayGame` returns the unrounded crash point. `Settle` takes whatever crash point it is given, which the Python program rounds first.
- `print`, `input`, `float(...)` parsing and `exit()` in the driver (`game.py:21`, `:53-75`) are console I/O. Only the decision logic is modelled, and NaN or infinite inputs are not considered.
- `rtp_val` is imported from a module `INITIAL` (`game.py:5`). INITIAL is not part of this model, so the return-to-player fraction is a constructor parameter. The model also drops `__init__`'s default of `rtp_val=0.99` (`game.py:18`): a caller must always pass `rtp`.
- The default chain length of 10000000 (`game.py:30`) only affects performance; the length is a parameter.
- Hex.FromHex: does not model `bytes.fromhex` skipping ASCII whitespace between byte pairs; such input is an error here. The round hash is always a 64-character hex digest, so this never arises in the game.
- HexValue: models `int(s, 16)` only on strings of hex digits. It does not model the rejection of the empty string, nor the acceptance of a sign, a `0x` prefix, underscores or surrounding whitespace. The argument in the game is always the first 8 characters of a hex digest.
- Python's `max(1, x)` returns the integer `1` when `x <= 1`. The model returns the real `1.0`, which has the same value.
- Single use of chain elements is stated by position: each round removes the element it uses, and `PlayGame` counts rounds. The model cannot prove that the hash values themselves are pairwise distinct, because with SHA-256 uninterpreted the iterates may repeat.
