/**
 * The input selection inside `send`: walk the unspent outputs in the order
 * the node listed them, take each one, and stop as soon as the running total
 * reaches the fixed payment.
 */
module CoinSelection {

  /** The fixed payment, in the node's unit (BTC). */
  const Payment: real := 100.0

  /** An unspent output as `listUnspent` reports it (the fields `send` reads). */
  datatype Utxo = Utxo(txid: string, vout: nat, amount: real)

  /** The `{txid, vout}` reference passed to `createRawTransaction`. */
  datatype InputRef = InputRef(txid: string, vout: nat)

  /**
   * Sum of the amounts, folded from the left as `reduce((sum, utxo) => sum + utxo.amount, 0)`
   * does; the contract states that folding from the right gives the same total.
   */
  function Sum(utxos: seq<Utxo>): (total: real)
    ensures utxos != [] ==> total == utxos[0].amount + Sum(utxos[1..])
  {
    if utxos == [] then 0.0
    else
      var init := utxos[..|utxos| - 1];
      assert init != [] ==> init[1..] == utxos[1..][..|utxos| - 2];
      Sum(init) + utxos[|utxos| - 1].amount
  }

  lemma SumSnoc(utxos: seq<Utxo>, i: nat)
    requires i < |utxos|
    ensures Sum(utxos[..i + 1]) == Sum(utxos[..i]) + utxos[i].amount
  {
    assert utxos[..i + 1][..i] == utxos[..i];
  }

  /** The `{txid, vout}` projection of each output, in order. */
  function Project(utxos: seq<Utxo>): (refs: seq<InputRef>)
    ensures |refs| == |utxos|
    ensures forall i :: 0 <= i < |utxos| ==> refs[i] == InputRef(utxos[i].txid, utxos[i].vout)
  {
    if utxos == [] then [] else [InputRef(utxos[0].txid, utxos[0].vout)] + Project(utxos[1..])
  }

  lemma ProjectSnoc(utxos: seq<Utxo>, i: nat)
    requires i < |utxos|
    ensures Project(utxos[..i + 1]) == Project(utxos[..i]) + [InputRef(utxos[i].txid, utxos[i].vout)]
  {
  }

  /**
   * k is where first-fit selection stops: every shorter prefix falls short of
   * the payment, and the prefix of length k either covers it or is the whole list.
   */
  predicate IsFirstFit(utxos: seq<Utxo>, k: nat) {
    && k <= |utxos|
    && (forall j :: 0 <= j < k ==> Sum(utxos[..j]) < Payment)
    && (k == |utxos| || Sum(utxos[..k]) >= Payment)
  }

  /** The first-fit stopping point, searched from prefix length `from` on. */
  function FirstFitFrom(utxos: seq<Utxo>, from: nat): (k: nat)
    requires from <= |utxos|
    ensures from <= k <= |utxos|
    ensures forall j :: from <= j < k ==> Sum(utxos[..j]) < Payment
    ensures k == |utxos| || Sum(utxos[..k]) >= Payment
    decreases |utxos| - from
  {
    if from == |utxos| || Sum(utxos[..from]) >= Payment then from
    else FirstFitFrom(utxos, from + 1)
  }

  /** The length of the prefix that first-fit selection takes. */
  function FirstFitLength(utxos: seq<Utxo>): (k: nat)
    ensures IsFirstFit(utxos, k)
  {
    FirstFitFrom(utxos, 0)
  }

  /** The stopping point is unique, so FirstFitLength is the only one. */
  lemma FirstFitUnique(utxos: seq<Utxo>, k1: nat, k2: nat)
    requires IsFirstFit(utxos, k1) && IsFirstFit(utxos, k2)
    ensures k1 == k2
  {
  }

  /**
   * When the whole list covers the payment, the selection is non-empty and
   * its total covers the payment too.
   */
  lemma FirstFitCovers(utxos: seq<Utxo>)
    requires Sum(utxos) >= Payment
    ensures 1 <= FirstFitLength(utxos) <= |utxos|
    ensures Sum(utxos[..FirstFitLength(utxos)]) >= Payment
  {
    var k := FirstFitLength(utxos);
    assert utxos[..|utxos|] == utxos;
    assert utxos[..0] == [];
  }

  /** A worked example: 60 + 50 reaches the payment at the second output. */
  lemma TwoOutputsExample()
    ensures var u := [Utxo("a", 0, 60.0), Utxo("b", 1, 50.0)];
      && FirstFitLength(u) == 2
      && Project(u[..FirstFitLength(u)]) == [InputRef("a", 0), InputRef("b", 1)]
      && Sum(u[..FirstFitLength(u)]) == 110.0
  {
  }

  /**
   * The selection loop of `send`: push each output's reference, add its
   * amount, break once the total reaches the payment.
   */
  method SelectInputs(unspent: seq<Utxo>) returns (inputs: seq<InputRef>, inputAmount: real)
    ensures |inputs| == FirstFitLength(unspent)
    ensures inputs == Project(unspent[..|inputs|])
    ensures inputAmount == Sum(unspent[..|inputs|])
    ensures IsFirstFit(unspent, |inputs|)
  {
    inputs := [];
    inputAmount := 0.0;
    var i := 0;
    while i < |unspent|
      invariant 0 <= i <= |unspent| && |inputs| == i
      invariant inputs == Project(unspent[..i])
      invariant inputAmount == Sum(unspent[..i]) < Payment
      invariant FirstFitFrom(unspent, i) == FirstFitLength(unspent)
    {
      var utxo := unspent[i];
      inputs := inputs + [InputRef(utxo.txid, utxo.vout)];
      inputAmount := inputAmount + utxo.amount;
      SumSnoc(unspent, i);
      ProjectSnoc(unspent, i);
      i := i + 1;
      if inputAmount >= Payment {
        break;
      }
    }
  }
}
