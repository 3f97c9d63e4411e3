/** The diff extractor: one decoded block becomes the list of outputs it
    creates and the list of outputs it spends. Data-carrier outputs
    ("nulldata") and generation inputs ("coinbase") are skipped. */
module Diff {

  /** An output of a transaction as the block decoder delivers it; `value` is decimal text. */
  datatype Vout = Vout(txid: string, vout: nat, kind: string, address: string, value: string)

  /** An input of a transaction: the output it spends and that output's address. */
  datatype Vin = Vin(txid: string, vout: nat, kind: string, address: string)

  datatype Tx = Tx(vouts: seq<Vout>, vins: seq<Vin>)

  datatype Block = Block(txs: seq<Tx>)

  /** A created output. */
  datatype NewUtxo = NewUtxo(txid: string, vout: nat, height: int, address: string, amount: string)

  /** A spent output. */
  datatype DelUtxo = DelUtxo(txid: string, vout: nat, address: string)

  const NULLDATA := "nulldata"
  const COINBASE := "coinbase"

  function Created(o: Vout, height: int): NewUtxo {
    NewUtxo(o.txid, o.vout, height, o.address, o.value)
  }

  function Spent(i: Vin): DelUtxo {
    DelUtxo(i.txid, i.vout, i.address)
  }

  /** The creations of a run of outputs, in order. */
  function VoutCreations(vouts: seq<Vout>, height: int): seq<NewUtxo> {
    if vouts == [] then []
    else
      var last := vouts[|vouts| - 1];
      VoutCreations(vouts[..|vouts| - 1], height) + (if last.kind != NULLDATA then [Created(last, height)] else [])
  }

  /** The consumptions of a run of inputs, in order. */
  function VinConsumptions(vins: seq<Vin>): seq<DelUtxo> {
    if vins == [] then []
    else
      var last := vins[|vins| - 1];
      VinConsumptions(vins[..|vins| - 1]) + (if last.kind != COINBASE then [Spent(last)] else [])
  }

  /** The creations of a run of transactions: each transaction's outputs in turn. */
  function Creations(txs: seq<Tx>, height: int): seq<NewUtxo> {
    if txs == [] then []
    else Creations(txs[..|txs| - 1], height) + VoutCreations(txs[|txs| - 1].vouts, height)
  }

  /** The consumptions of a run of transactions: each transaction's inputs in turn. */
  function Consumptions(txs: seq<Tx>): seq<DelUtxo> {
    if txs == [] then []
    else Consumptions(txs[..|txs| - 1]) + VinConsumptions(txs[|txs| - 1].vins)
  }

  /** Extracts the diff of one block; the two lists are in transaction order,
      and within a transaction in output (resp. input) order. */
  method ComputeDiff(height: int, block: Block) returns (newUtxos: seq<NewUtxo>, delUtxos: seq<DelUtxo>)
    ensures newUtxos == Creations(block.txs, height)
    ensures delUtxos == Consumptions(block.txs)
  {
    newUtxos := [];
    delUtxos := [];
    var txs := block.txs;
    for i := 0 to |txs|
      invariant newUtxos == Creations(txs[..i], height)
      invariant delUtxos == Consumptions(txs[..i])
    {
      assert txs[..i + 1][..i] == txs[..i];
      var created := TxCreations(txs[i].vouts, height);
      var spent := TxConsumptions(txs[i].vins);
      newUtxos := newUtxos + created;
      delUtxos := delUtxos + spent;
    }
    assert txs[..|txs|] == txs;
  }

  /** The inner loop over a transaction's outputs. */
  method TxCreations(vouts: seq<Vout>, height: int) returns (created: seq<NewUtxo>)
    ensures created == VoutCreations(vouts, height)
  {
    created := [];
    for j := 0 to |vouts|
      invariant created == VoutCreations(vouts[..j], height)
    {
      assert vouts[..j + 1][..j] == vouts[..j];
      if vouts[j].kind != NULLDATA {
        created := created + [Created(vouts[j], height)];
      }
    }
    assert vouts[..|vouts|] == vouts;
  }

  /** The inner loop over a transaction's inputs. */
  method TxConsumptions(vins: seq<Vin>) returns (spent: seq<DelUtxo>)
    ensures spent == VinConsumptions(vins)
  {
    spent := [];
    for j := 0 to |vins|
      invariant spent == VinConsumptions(vins[..j])
    {
      assert vins[..j + 1][..j] == vins[..j];
      if vins[j].kind != COINBASE {
        spent := spent + [Spent(vins[j])];
      }
    }
    assert vins[..|vins|] == vins;
  }

  /** A creation is exactly the image of a non-nulldata output of the run, stamped with the block height. */
  lemma {:induction false} VoutCreationsMembers(vouts: seq<Vout>, height: int, u: NewUtxo)
    ensures u in VoutCreations(vouts, height) <==>
            exists j :: 0 <= j < |vouts| && vouts[j].kind != NULLDATA && u == Created(vouts[j], height)
  {
    if vouts != [] {
      var p := vouts[..|vouts| - 1];
      VoutCreationsMembers(p, height, u);
      assert forall j :: 0 <= j < |p| ==> p[j] == vouts[j];
    }
  }

  /** A consumption is exactly the image of a non-coinbase input of the run. */
  lemma {:induction false} VinConsumptionsMembers(vins: seq<Vin>, d: DelUtxo)
    ensures d in VinConsumptions(vins) <==>
            exists j :: 0 <= j < |vins| && vins[j].kind != COINBASE && d == Spent(vins[j])
  {
    if vins != [] {
      var p := vins[..|vins| - 1];
      VinConsumptionsMembers(p, d);
      assert forall j :: 0 <= j < |p| ==> p[j] == vins[j];
    }
  }

  /** One creation per output when no output is a data carrier, none at all when every output is. */
  lemma {:induction false} VoutCreationsCount(vouts: seq<Vout>, height: int)
    ensures |VoutCreations(vouts, height)| <= |vouts|
    ensures (forall j :: 0 <= j < |vouts| ==> vouts[j].kind != NULLDATA) ==> |VoutCreations(vouts, height)| == |vouts|
    ensures (forall j :: 0 <= j < |vouts| ==> vouts[j].kind == NULLDATA) ==> VoutCreations(vouts, height) == []
  {
    if vouts != [] {
      VoutCreationsCount(vouts[..|vouts| - 1], height);
    }
  }

  /** One consumption per input when no input is a generation input, none at all when every input is. */
  lemma {:induction false} VinConsumptionsCount(vins: seq<Vin>)
    ensures |VinConsumptions(vins)| <= |vins|
    ensures (forall j :: 0 <= j < |vins| ==> vins[j].kind != COINBASE) ==> |VinConsumptions(vins)| == |vins|
    ensures (forall j :: 0 <= j < |vins| ==> vins[j].kind == COINBASE) ==> VinConsumptions(vins) == []
  {
    if vins != [] {
      VinConsumptionsCount(vins[..|vins| - 1]);
    }
  }

  /** Extraction is compositional: the diff of two runs of transactions is the
      diff of the first followed by the diff of the second. */
  lemma {:induction false} CreationsAppend(a: seq<Tx>, b: seq<Tx>, height: int)
    ensures Creations(a + b, height) == Creations(a, height) + Creations(b, height)
    ensures Consumptions(a + b) == Consumptions(a) + Consumptions(b)
  {
    if b != [] {
      var b' := b[..|b| - 1];
      assert (a + b)[..|a + b| - 1] == a + b';
      CreationsAppend(a, b', height);
    } else {
      assert a + b == a;
    }
  }

  /** A creation of the block is a creation of one of its transactions, and every transaction's creations are in it. */
  lemma {:induction false} CreationsMembers(txs: seq<Tx>, height: int, u: NewUtxo)
    ensures u in Creations(txs, height) <==>
            exists i :: 0 <= i < |txs| && u in VoutCreations(txs[i].vouts, height)
  {
    if txs != [] {
      var p := txs[..|txs| - 1];
      var last := txs[|txs| - 1];
      CreationsMembers(p, height, u);
      assert Creations(txs, height) == Creations(p, height) + VoutCreations(last.vouts, height);
      if u in Creations(p, height) {
        var i :| 0 <= i < |p| && u in VoutCreations(p[i].vouts, height);
        assert txs[i] == p[i];
      }
      if exists i :: 0 <= i < |txs| && u in VoutCreations(txs[i].vouts, height) {
        var i :| 0 <= i < |txs| && u in VoutCreations(txs[i].vouts, height);
        if i < |p| {
          assert txs[i] == p[i];
        }
      }
    }
  }

  /** A consumption of the block is a consumption of one of its transactions, and every transaction's consumptions are in it. */
  lemma {:induction false} ConsumptionsMembers(txs: seq<Tx>, d: DelUtxo)
    ensures d in Consumptions(txs) <==>
            exists i :: 0 <= i < |txs| && d in VinConsumptions(txs[i].vins)
  {
    if txs != [] {
      var p := txs[..|txs| - 1];
      var last := txs[|txs| - 1];
      ConsumptionsMembers(p, d);
      assert Consumptions(txs) == Consumptions(p) + VinConsumptions(last.vins);
      if d in Consumptions(p) {
        var i :| 0 <= i < |p| && d in VinConsumptions(p[i].vins);
        assert txs[i] == p[i];
      }
      if exists i :: 0 <= i < |txs| && d in VinConsumptions(txs[i].vins) {
        var i :| 0 <= i < |txs| && d in VinConsumptions(txs[i].vins);
        if i < |p| {
          assert txs[i] == p[i];
        }
      }
    }
  }

  /** Every creation of a block carries the block's height. */
  lemma {:induction false} CreationsHeight(txs: seq<Tx>, height: int, u: NewUtxo)
    requires u in Creations(txs, height)
    ensures u.height == height
  {
    CreationsMembers(txs, height, u);
    var i :| 0 <= i < |txs| && u in VoutCreations(txs[i].vouts, height);
    VoutCreationsMembers(txs[i].vouts, height, u);
  }
}
