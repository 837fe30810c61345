/** Coins (coin/coin.go): a 256-bit amount shadowed by four 64-bit words that must stay in step. */
module CoinAmount {
  import opened Wrappers
  import opened CoinText

  const WORD: nat := 0x1_0000_0000_0000_0000

  /** A nil amount counts as zero. */
  type Amount = Option<nat>

  function AsNat(a: Amount): nat {
    if a.Some? then a.value else 0
  }

  predicate InBounds(a: Amount) {
    AsNat(a) < UINT_LIMIT
  }

  predicate IsZero(a: Amount) {
    AsNat(a) == 0
  }

  /** Subtraction of naturals that stops at zero. */
  function Monus(n: nat, m: nat): nat {
    if n < m then 0 else n - m
  }

  // Arithmetic on amounts. `None` stands for the panic of the integer library on overflow.

  function AddAmount(i: Amount, amount: Amount): Option<Amount> {
    if IsZero(amount) then Some(i)
    else if IsZero(i) then Some(amount)
    else if i.value + amount.value >= UINT_LIMIT then None
    else Some(Some(i.value + amount.value))
  }

  function SubtractAmount(i: Amount, amount: Amount): Amount {
    if IsZero(amount) || IsZero(i) then i
    else if i.value <= amount.value then Some(0)
    else Some(i.value - amount.value)
  }

  /** Addition and saturating subtraction of naturals, whatever is nil or zero. */
  lemma ArithmeticMeaning(i: Amount, amount: Amount)
    requires InBounds(i) && InBounds(amount)
    ensures AddAmount(i, amount).Some? <==> AsNat(i) + AsNat(amount) < UINT_LIMIT
    ensures AddAmount(i, amount).Some? ==> AsNat(AddAmount(i, amount).value) == AsNat(i) + AsNat(amount)
    ensures AsNat(SubtractAmount(i, amount)) == Monus(AsNat(i), AsNat(amount))
    ensures AddAmount(i, amount).Some? ==> AsNat(SubtractAmount(AddAmount(i, amount).value, amount)) == AsNat(i)
  {
  }

  // The words.

  /** Little-endian base-2^64 digits without leading zeros, as `big.Int.Bits` gives them. */
  function Bits(n: nat): seq<nat> {
    if n == 0 then [] else [n % WORD] + Bits(n / WORD)
  }

  function FromBits(ws: seq<nat>): nat {
    if ws == [] then 0 else ws[0] + WORD * FromBits(ws[1..])
  }

  function PowWord(k: nat): nat {
    if k == 0 then 1 else WORD * PowWord(k - 1)
  }

  lemma {:induction false} BitsMeaning(n: nat, k: nat)
    requires n < PowWord(k)
    ensures FromBits(Bits(n)) == n && |Bits(n)| <= k
    ensures forall i :: 0 <= i < |Bits(n)| ==> Bits(n)[i] < WORD
  {
    if n > 0 {
      assert k > 0;
      QuotientBelow(n, PowWord(k - 1));
      BitsMeaning(n / WORD, k - 1);
    }
  }

  lemma QuotientBelow(n: nat, p: nat)
    requires n < WORD * p
    ensures n / WORD < p
  {
  }

  function Words(w0: nat, w1: nat, w2: nat, w3: nat): nat {
    w0 + WORD * (w1 + WORD * (w2 + WORD * w3))
  }

  function BitAt(ws: seq<nat>, i: nat): nat {
    if i < |ws| then ws[i] else 0
  }

  lemma FourWords(ws: seq<nat>)
    requires |ws| <= 4
    ensures Words(BitAt(ws, 0), BitAt(ws, 1), BitAt(ws, 2), BitAt(ws, 3)) == FromBits(ws)
  {
    if |ws| > 1 {
      assert ws[1..][1..] == ws[2..];
      assert FromBits(ws[1..]) == ws[1] + WORD * FromBits(ws[2..]);
      if |ws| > 2 {
        assert ws[2..][1..] == ws[3..];
        assert FromBits(ws[2..]) == ws[2] + WORD * FromBits(ws[3..]);
        if |ws| > 3 {
          assert ws[3..][1..] == ws[4..];
          assert FromBits(ws[3..]) == ws[3] + WORD * FromBits(ws[4..]);
        }
      }
    }
  }

  class Coin {
    var amount: Amount
    var w0: nat
    var w1: nat
    var w2: nat
    var w3: nat

    /** The words are the base-2^64 digits of the amount. */
    predicate InStep()
      reads this
    {
      && InBounds(amount)
      && w0 < WORD && w1 < WORD && w2 < WORD && w3 < WORD
      && w0 + w1 * 0x1_0000_0000_0000_0000 + w2 * 0x1_0000_0000_0000_0000_0000_0000_0000_0000
         + w3 * 0x1_0000_0000_0000_0000_0000_0000_0000_0000_0000_0000_0000_0000 == AsNat(amount)
    }

    constructor ()
      ensures amount == None && InStep()
    {
      amount := None;
      w0, w1, w2, w3 := 0, 0, 0, 0;
    }

    method SetWord(position: nat, value: nat)
      modifies this`w0, this`w1, this`w2, this`w3
      ensures w0 == if position == 0 then value else old(w0)
      ensures w1 == if position == 1 then value else old(w1)
      ensures w2 == if position == 2 then value else old(w2)
      ensures w3 == if position == 3 then value else old(w3)
    {
      match position {
        case 0 => w0 := value;
        case 1 => w1 := value;
        case 2 => w2 := value;
        case 3 => w3 := value;
        case _ =>
      }
    }

    /** Whatever the coin held before, afterwards it holds the amount and its words. */
    method SetAmount(amount: Amount)
      requires InBounds(amount)
      modifies this
      ensures this.amount == amount && InStep()
    {
      this.amount := amount;
      if amount.None? {
        w0, w1, w2, w3 := 0, 0, 0, 0;
        return;
      }
      var bits := Bits(amount.value);
      BitsFit(amount.value);
      for i := 0 to |bits|
        invariant this.amount == amount
        invariant (i > 0 ==> w0 == BitAt(bits, 0)) && (i > 1 ==> w1 == BitAt(bits, 1))
        invariant (i > 2 ==> w2 == BitAt(bits, 2)) && (i > 3 ==> w3 == BitAt(bits, 3))
      {
        SetWord(i, bits[i]);
      }
      for i := |bits| to 4
        invariant this.amount == amount
        invariant (i > 0 ==> w0 == BitAt(bits, 0)) && (i > 1 ==> w1 == BitAt(bits, 1))
        invariant (i > 2 ==> w2 == BitAt(bits, 2)) && (i > 3 ==> w3 == BitAt(bits, 3))
      {
        SetWord(i, 0);
      }
      FourWords(bits);
    }

    /** `c.Add(amount)`: the same coin if nothing is added, otherwise a new one, whose words are in
        step even if those of this coin are not; this one is left alone. On overflow the source
        panics (`panicked`). */
    method Add(amount: Amount) returns (sum: Coin, panicked: bool)
      requires InBounds(this.amount) && InBounds(amount)
      ensures panicked <==> AsNat(this.amount) + AsNat(amount) >= UINT_LIMIT
      ensures !panicked ==> AsNat(sum.amount) == AsNat(this.amount) + AsNat(amount)
      ensures sum == this || (fresh(sum) && sum.InStep())
      ensures sum == this <==> panicked || IsZero(amount)
    {
      if IsZero(amount) {
        return this, false;
      }
      var result := AddAmount(this.amount, amount);
      if result.None? {
        return this, true;
      }
      panicked := false;
      sum := new Coin();
      sum.SetAmount(if IsZero(this.amount) then amount else result.value);
    }

    method Subtract(amount: Amount) returns (difference: Coin)
      requires InBounds(this.amount) && InBounds(amount)
      ensures AsNat(difference.amount) == Monus(AsNat(this.amount), AsNat(amount))
      ensures difference == this || (fresh(difference) && difference.InStep())
      ensures difference == this <==> IsZero(amount) || IsZero(this.amount)
    {
      if IsZero(amount) || IsZero(this.amount) {
        return this;
      }
      difference := new Coin();
      difference.SetAmount(SubtractAmount(this.amount, amount));
    }
  }

  lemma BitsFit(n: nat)
    requires n < UINT_LIMIT
    ensures |Bits(n)| <= 4 && FromBits(Bits(n)) == n
    ensures forall i :: 0 <= i < |Bits(n)| ==> Bits(n)[i] < WORD
  {
    assert PowWord(1) == WORD && PowWord(2) == WORD * WORD && PowWord(3) == WORD * (WORD * WORD);
    assert PowWord(4) == UINT_LIMIT;
    BitsMeaning(n, 4);
  }

  // Whole runs.

  datatype Operation = Set(amount: Amount) | Plus(amount: Amount) | Minus(amount: Amount)

  /** The amount after one operation, saturating at zero; `None` if an addition overflows. */
  function Applied(n: nat, operation: Operation): Option<nat> {
    match operation
    case Set(a) => Some(AsNat(a))
    case Plus(a) => if n + AsNat(a) >= UINT_LIMIT then None else Some(n + AsNat(a))
    case Minus(a) => Some(Monus(n, AsNat(a)))
  }

  /** The amount after a run of operations; `None` once one of them overflows. */
  function Fold(start: nat, run: seq<Operation>): Option<nat> {
    if run == [] then Some(start) else
    var before := Fold(start, run[..|run| - 1]);
    if before.None? then None else Applied(before.value, run[|run| - 1])
  }

  /** Does the operation write the words, given the amount before it? Adding or subtracting nothing,
      and subtracting from nothing, hands the coin itself back. */
  predicate Writes(n: nat, operation: Operation) {
    match operation
    case Set(_) => true
    case Plus(a) => AsNat(a) != 0
    case Minus(a) => AsNat(a) != 0 && n != 0
  }

  /** Has some operation of the run, before any overflow, written the words? */
  predicate Written(start: nat, run: seq<Operation>) {
    run != [] &&
    var init, last := run[..|run| - 1], run[|run| - 1];
    Written(start, init) ||
    (Fold(start, init).Some? && Applied(Fold(start, init).value, last).Some? && Writes(Fold(start, init).value, last))
  }

  method Perform(coin: Coin, operation: Operation) returns (result: Coin, panicked: bool)
    requires InBounds(coin.amount) && InBounds(operation.amount)
    modifies coin
    ensures result == coin || fresh(result)
    ensures Applied(old(AsNat(coin.amount)), operation) == if panicked then None else Some(AsNat(result.amount))
    ensures InBounds(result.amount)
    ensures result.InStep() <==> old(coin.InStep()) || (!panicked && Writes(old(AsNat(coin.amount)), operation))
  {
    result, panicked := coin, false;
    match operation {
      case Set(a) => coin.SetAmount(a);
      case Plus(a) => result, panicked := coin.Add(a);
      case Minus(a) => result := coin.Subtract(a);
    }
  }

  /** After any run, whatever the words of the starting coin were (a coin decoded from JSON has an
      amount and zero words), the amount is the fold over naturals, and the words are in step iff they
      were at the start or some operation has written them. */
  method Run(start: Coin, run: seq<Operation>) returns (coin: Coin, panicked: bool)
    requires InBounds(start.amount) && forall k :: 0 <= k < |run| ==> InBounds(run[k].amount)
    modifies start
    ensures panicked <==> Fold(old(AsNat(start.amount)), run).None?
    ensures !panicked ==> Some(AsNat(coin.amount)) == Fold(old(AsNat(start.amount)), run)
    ensures coin.InStep() <==> old(start.InStep()) || Written(old(AsNat(start.amount)), run)
  {
    ghost var initial, inStep := AsNat(start.amount), start.InStep();
    coin, panicked := start, false;
    for k := 0 to |run|
      invariant coin == start || fresh(coin)
      invariant InBounds(coin.amount)
      invariant coin.InStep() <==> inStep || Written(initial, run[..k])
      invariant !panicked ==> Some(AsNat(coin.amount)) == Fold(initial, run[..k])
      invariant panicked ==> Fold(initial, run[..k]).None?
    {
      assert run[..k + 1][..k] == run[..k];
      if !panicked {
        coin, panicked := Perform(coin, run[k]);
      }
    }
    assert run[..|run|] == run;
  }

  /** A decoded coin shows that writing matters: adding nothing leaves its words behind. */
  lemma DecodedOutOfStep(n: nat, coin: Coin)
    requires 0 < n < UINT_LIMIT && coin.amount == Some(n) && coin.w0 == coin.w1 == coin.w2 == coin.w3 == 0
    ensures !coin.InStep() && !Written(n, []) && !Written(n, [Plus(None)])
    ensures Written(n, [Plus(Some(0)), Minus(Some(1))])
  {
    var run := [Plus(Some(0)), Minus(Some(1))];
    assert run[..1] == [Plus(Some(0))] && run[..1][..0] == [];
  }
}
