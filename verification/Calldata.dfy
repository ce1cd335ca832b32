/**
 Calldata of ERC-20 transfers: the encoding of transfer(address,uint256) and what
 is read back from a signed transaction. Models packERC20Transfer and
 SendResultFromSigned of internal/eth/transfer.go.
 */
module Calldata {
  import opened Outcomes

  type Byte = b: int | 0 <= b < 256

  type Bytes = seq<Byte>

  /** Twenty bytes. */
  type Address = a: Bytes | |a| == 20 witness Zeros(20)

  const TWO_256 := 0x1_0000000000000000_0000000000000000_0000000000000000_0000000000000000

  const SELECTOR: Bytes := [0xa9, 0x05, 0x9c, 0xbb]

  const CALL_LENGTH := 68

  function Pow256(n: nat): (p: nat)
    ensures p > 0
  {
    if n == 0 then 1 else 256 * Pow256(n - 1)
  }

  /** The unsigned number a big-endian byte string stands for. */
  function FromBytes(bs: Bytes): nat
  {
    if |bs| == 0 then 0 else 256 * FromBytes(bs[..|bs| - 1]) + bs[|bs| - 1]
  }

  /** The low `k` bytes of `n`, most significant first. */
  function ToBytes(n: nat, k: nat): (bs: Bytes)
    ensures |bs| == k
  {
    if k == 0 then [] else ToBytes(n / 256, k - 1) + [n % 256]
  }

  /**
   The section "Formal Specification of the Encoding" of the Solidity Contract ABI
   Specification: the selector, then each static argument as a 32-byte big-endian
   word, an address being encoded as the 160-bit number it stands for.
   */
  function Pack(to: Address, amount: nat): (data: Bytes)
    requires amount < TWO_256
    ensures |data| == CALL_LENGTH
  {
    SELECTOR + ToBytes(FromBytes(to), 32) + ToBytes(amount, 32)
  }

  // ---------------------------------------------------------------------
  // Reading a signed transaction.
  // ---------------------------------------------------------------------

  /** A signed transaction; `sender` is what signature recovery yields. */
  datatype SignedTx = SignedTx(sender: Option<Address>, to: Option<Address>, value: nat, data: Bytes)

  datatype Kind = Native | Erc20(token: Address)

  datatype Summary = Summary(from: Address, to: Address, value: nat, kind: Kind)

  /** `NoTarget` is the nil dereference met when a contract creation carries transfer calldata. */
  datatype ReadError = BadSignature | NoTarget

  function ReadSigned(tx: SignedTx): Result<Summary, ReadError>
  {
    if tx.sender.None? then Err(BadSignature)
    else
      var summary := Summary(tx.sender.value, if tx.to.Some? then tx.to.value else Zeros(20), tx.value, Native);
      if |tx.data| >= CALL_LENGTH && tx.value == 0 && tx.data[..4] == SELECTOR then
        if tx.to.None? then Err(NoTarget)
        else Ok(summary.(kind := Erc20(tx.to.value), to := tx.data[16..36], value := FromBytes(tx.data[36..68])))
      else Ok(summary)
  }

  /** The transaction SignERC20Transfer signs: no ether, addressed to the token. */
  function TransferTx(from: Address, token: Address, to: Address, amount: nat): SignedTx
    requires amount < TWO_256
  {
    SignedTx(Some(from), Some(token), 0, Pack(to, amount))
  }

  // ---------------------------------------------------------------------
  // Numbers and byte strings.
  // ---------------------------------------------------------------------

  lemma {:induction false} BytesBelow(bs: Bytes)
    ensures FromBytes(bs) < Pow256(|bs|)
  {
    if |bs| > 0 {
      BytesBelow(bs[..|bs| - 1]);
    }
  }

  lemma {:induction false} FromTo(n: nat, k: nat)
    requires n < Pow256(k)
    ensures FromBytes(ToBytes(n, k)) == n
  {
    if k > 0 {
      FromTo(n / 256, k - 1);
      assert ToBytes(n, k)[..k - 1] == ToBytes(n / 256, k - 1);
    }
  }

  lemma {:induction false} ToFrom(bs: Bytes)
    ensures ToBytes(FromBytes(bs), |bs|) == bs
  {
    if |bs| > 0 {
      ToFrom(bs[..|bs| - 1]);
      assert bs == bs[..|bs| - 1] + [bs[|bs| - 1]];
    }
  }

  function Zeros(k: nat): (z: Bytes)
    ensures |z| == k
  {
    if k == 0 then [] else Zeros(k - 1) + [0]
  }

  /** Leading zero bytes do not count. */
  lemma {:induction false} ZerosInvisible(k: nat, bs: Bytes)
    ensures FromBytes(Zeros(k) + bs) == FromBytes(bs)
    decreases |bs|, k
  {
    var padded := Zeros(k) + bs;
    if |bs| > 0 {
      ZerosInvisible(k, bs[..|bs| - 1]);
      assert padded[..|padded| - 1] == Zeros(k) + bs[..|bs| - 1];
    } else if k > 0 {
      ZerosInvisible(k - 1, bs);
      assert padded[..|padded| - 1] == Zeros(k - 1) + bs;
    }
  }

  lemma {:induction false} Pow256Add(a: nat, b: nat)
    ensures Pow256(a + b) == Pow256(a) * Pow256(b)
  {
    if a > 0 {
      Pow256Add(a - 1, b);
    }
  }

  lemma WordBound()
    ensures Pow256(32) == TWO_256
  {
    assert Pow256(4) == 0x1_0000_0000;
    Pow256Add(4, 4);
    Pow256Add(8, 8);
    Pow256Add(16, 16);
  }

  /** The address word is twelve zero bytes and then the address itself. */
  lemma AddressWord(to: Address)
    ensures ToBytes(FromBytes(to), 32) == Zeros(12) + to
  {
    hide ToBytes, FromBytes;
    ZerosInvisible(12, to);
    ToFrom(Zeros(12) + to);
  }

  lemma PackedLayout(to: Address, amount: nat)
    requires amount < TWO_256
    ensures Pack(to, amount) == SELECTOR + Zeros(12) + to + ToBytes(amount, 32)
  {
    hide ToBytes, FromBytes;
    AddressWord(to);
  }

  // ---------------------------------------------------------------------
  // Main results.
  // ---------------------------------------------------------------------

  /** Reading a signed transfer gives back its token, recipient and amount. */
  lemma ReadUndoesPack(from: Address, token: Address, to: Address, amount: nat)
    requires amount < TWO_256
    ensures ReadSigned(TransferTx(from, token, to, amount)) == Ok(Summary(from, to, amount, Erc20(token)))
  {
    hide ToBytes, FromBytes;
    PackedLayout(to, amount);
    var data := Pack(to, amount);
    assert data[..4] == SELECTOR;
    assert data[16..36] == to;
    assert data[36..68] == ToBytes(amount, 32);
    WordBound();
    FromTo(amount, 32);
  }

  /** Different transfers have different calldata. */
  lemma PackInjective(to: Address, amount: nat, to': Address, amount': nat)
    requires amount < TWO_256 && amount' < TWO_256
    requires Pack(to, amount) == Pack(to', amount')
    ensures to == to' && amount == amount'
  {
    hide Pack, ReadSigned;
    ReadUndoesPack(to, to, to, amount);
    ReadUndoesPack(to, to, to', amount');
  }

  /**
   What is read as a token transfer encodes back to the first 68 bytes of its calldata
   exactly when the twelve padding bytes, which the reader skips, are zero.
   */
  lemma PackUndoesReadIff(tx: SignedTx)
    requires ReadSigned(tx).Ok? && ReadSigned(tx).value.kind.Erc20?
    ensures var s := ReadSigned(tx).value;
            |tx.data| >= CALL_LENGTH && s.value < TWO_256
            && (Pack(s.to, s.value) == tx.data[..CALL_LENGTH] <==> tx.data[4..16] == Zeros(12))
  {
    hide ToBytes, FromBytes;
    var s := ReadSigned(tx).value;
    var d := tx.data[..CALL_LENGTH];
    WordBound();
    BytesBelow(tx.data[36..68]);
    ToFrom(tx.data[36..68]);
    PackedLayout(s.to, s.value);
    var packed := Pack(s.to, s.value);
    assert packed[4..16] == Zeros(12);
    assert d[4..16] == tx.data[4..16];
    assert d == SELECTOR + tx.data[4..16] + s.to + ToBytes(s.value, 32);
  }

  /** The guard of the token branch. */
  predicate LooksLikeTransfer(tx: SignedTx)
  {
    tx.value == 0 && |tx.data| >= CALL_LENGTH && SELECTOR <= tx.data
  }

  /**
   The four outcomes, each if and only if: no recoverable sender; transfer calldata on a
   contract creation, which crashes; transfer calldata sent to a token; and everything
   else, which is summarised as native with its own recipient and value.
   */
  lemma ReadCases(tx: SignedTx)
    ensures ReadSigned(tx) == Err(BadSignature) <==> tx.sender.None?
    ensures ReadSigned(tx) == Err(NoTarget) <==> tx.sender.Some? && LooksLikeTransfer(tx) && tx.to.None?
    ensures (exists token, to, amount :: ReadSigned(tx) == Ok(Transferred(tx, token, to, amount))) <==>
            tx.sender.Some? && LooksLikeTransfer(tx) && tx.to.Some?
    ensures (exists to :: ReadSigned(tx) == Ok(Plain(tx, to))) <==> tx.sender.Some? && !LooksLikeTransfer(tx)
    ensures ReadSigned(tx).Ok? && ReadSigned(tx).value.kind.Erc20? ==>
              ReadSigned(tx) == Ok(Transferred(tx, tx.to.value, tx.data[16..36], FromBytes(tx.data[36..68])))
    ensures ReadSigned(tx).Ok? && ReadSigned(tx).value.kind.Native? ==>
              ReadSigned(tx) == Ok(Plain(tx, if tx.to.Some? then tx.to.value else Zeros(20)))
  {
    hide FromBytes, Zeros;
    if |tx.data| >= CALL_LENGTH {
      assert SELECTOR <= tx.data <==> tx.data[..4] == SELECTOR;
    }
    if tx.sender.Some? && LooksLikeTransfer(tx) && tx.to.Some? {
      assert ReadSigned(tx) == Ok(Transferred(tx, tx.to.value, tx.data[16..36], FromBytes(tx.data[36..68])));
    }
    if tx.sender.Some? && !LooksLikeTransfer(tx) {
      assert ReadSigned(tx) == Ok(Plain(tx, if tx.to.Some? then tx.to.value else Zeros(20)));
    }
  }

  function Transferred(tx: SignedTx, token: Address, to: Address, amount: nat): Summary
  {
    Summary(if tx.sender.Some? then tx.sender.value else Zeros(20), to, amount, Erc20(token))
  }

  function Plain(tx: SignedTx, to: Address): Summary
  {
    Summary(if tx.sender.Some? then tx.sender.value else Zeros(20), to, tx.value, Native)
  }

  /** A contract creation whose init code happens to be transfer calldata. */
  const CREATION := SignedTx(Some(Zeros(20)), None, 0, Pack(Zeros(20), 1))

  lemma CreationCrashes()
    ensures ReadSigned(CREATION) == Err(NoTarget)
  {
    hide ReadSigned, ToBytes, FromBytes;
    PackedLayout(Zeros(20), 1);
    assert SELECTOR <= CREATION.data;
    ReadCases(CREATION);
  }

  /** The calldata of one concrete transfer, byte by byte: one unit to the zero address. */
  lemma PackedExample()
    ensures Pack(Zeros(20), 1) == [0xa9, 0x05, 0x9c, 0xbb] + Zeros(32) + Zeros(31) + [1]
  {
    hide FromBytes, ToBytes, Zeros, Pack;
    PackedLayout(Zeros(20), 1);
    ZerosAppend(12, 20);
    UnitWord(32);
    Regroup(SELECTOR, Zeros(12), Zeros(20), Zeros(31), [1]);
  }

  lemma Regroup(a: Bytes, b: Bytes, c: Bytes, d: Bytes, e: Bytes)
    ensures a + b + c + (d + e) == a + (b + c) + d + e
  {
  }

  lemma {:induction false} ZerosAppend(a: nat, b: nat)
    ensures Zeros(a) + Zeros(b) == Zeros(a + b)
  {
    if b > 0 {
      ZerosAppend(a, b - 1);
    }
  }

  lemma UnitWord(k: nat)
    requires k > 0
    ensures ToBytes(1, k) == Zeros(k - 1) + [1]
  {
    ZeroWord(k - 1);
  }

  lemma {:induction false} ZeroWord(k: nat)
    ensures ToBytes(0, k) == Zeros(k)
  {
    if k > 0 {
      ZeroWord(k - 1);
    }
  }
}
