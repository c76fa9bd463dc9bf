/**
 * `send`: the guards on the unspent list, input selection, the two-entry
 * output set, and the create / fund / sign / broadcast / decode sequence of
 * node calls with its sign gate. The node is not modelled: each of its
 * replies is an input, and what `send` asks of it is recorded as a trace of
 * calls.
 */
module Send {
  import opened Wrappers
  import opened CoinSelection
  import Base16
  import Utf8

  /** The message embedded in the data output; `send` ignores its `data` argument. */
  const Message: string := "We are all Satoshi!!"

  /** The reserved output key for an OP_RETURN payload. */
  const DataKey: string := "data"

  /**
   * The hex text of a message's UTF-8 bytes, as `send` embeds it: twice as
   * many lowercase digits as there are bytes, and decoding the hex and then
   * the UTF-8 gives back the message.
   */
  function EmbeddedHex(message: string): (hex: string)
    ensures |hex| == 2 * |Utf8.Encode(message)|
    ensures forall i :: 0 <= i < |hex| ==> Base16.IsLowerHexDigit(hex[i])
    ensures Base16.Decode(hex) == Some(Utf8.Encode(message))
    ensures Utf8.Decode(Base16.Decode(hex).value) == Some(message)
  {
    Base16.DecodeEncode(Utf8.Encode(message));
    Utf8.DecodeEncode(message);
    Base16.Encode(Utf8.Encode(message))
  }

  /** A worked example: the message "hi" is embedded as "6869". */
  lemma HexOfHi()
    ensures EmbeddedHex("hi") == "6869"
  {
  }

  /** Every character of the hard-coded message is below U+0080. */
  lemma MessageCharsAscii()
    ensures forall i :: 0 <= i < |Message| ==> Message[i] as int < 0x80
  {
  }

  /** The hard-coded message is ASCII, so its UTF-8 bytes are its character codes. */
  lemma MessageBytes()
    ensures |Utf8.Encode(Message)| == |Message|
    ensures forall i :: 0 <= i < |Message| ==> Utf8.Encode(Message)[i] == Message[i] as int
  {
    MessageCharsAscii();
    Utf8.EncodeAscii(Message);
  }

  /** A value of the output set: a payment amount or the hex payload. */
  datatype OutputValue = Amount(btc: real) | Data(hex: string)

  /**
   * The output set `{ [addr]: 100, data: messageHex }`. The payload is held
   * under "data" and the payment under the address; `data` is written second,
   * so when the address is "data" itself the payload overwrites the payment
   * and only one entry remains.
   */
  function Outputs(addr: string, messageHex: string): (outputs: map<string, OutputValue>)
    ensures outputs.Keys == {addr, DataKey}
    ensures outputs[DataKey] == Data(messageHex)
    ensures addr != DataKey ==> outputs[addr] == Amount(Payment)
    ensures |outputs| == if addr == DataKey then 1 else 2
  {
    map[addr := Amount(Payment)][DataKey := Data(messageHex)]
  }

  /** The payment survives in the output set exactly when the address is not "data". */
  lemma PaymentKeptIffAddressNotData(addr: string, messageHex: string)
    ensures Amount(Payment) in Outputs(addr, messageHex).Values <==> addr != DataKey
  {
    var m := Outputs(addr, messageHex);
    if addr != DataKey {
      assert m[addr] == Amount(Payment);
    } else {
      assert forall k :: k in m ==> m[k] == Data(messageHex);
    }
  }

  /** The part of `signRawTransactionWithWallet`'s reply that `send` reads. */
  datatype Signed = Signed(hex: string, complete: bool)

  /**
   * The node's reply to each call `send` makes, in call order; a `Failure`
   * carries the message of the error the client throws.
   */
  datatype Node = Node(
    listUnspent: Result<Option<seq<Utxo>>, string>,
    createRawTransaction: Result<string, string>,
    fundRawTransaction: Result<string, string>,
    signRawTransactionWithWallet: Result<Signed, string>,
    sendRawTransaction: Result<string, string>,
    decodeRawTransaction: Result<string, string>)

  /** A call `send` makes on the node, with the arguments it passes. */
  datatype Call =
    | ListUnspent
    | CreateRawTransaction(inputs: seq<InputRef>, outputs: map<string, OutputValue>)
    | FundRawTransaction(rawHex: string)
    | SignRawTransactionWithWallet(fundedHex: string)
    | SendRawTransaction(signedHex: string)
    | DecodeRawTransaction(signedHex: string)

  /** The errors `send` throws. */
  datatype SendError =
    | NoUnspentOutputs
    | InsufficientFunds(available: real)
    | SigningFailed
    | Rpc(message: string)

  /**
   * The message text of each error, as the source writes it. The
   * insufficient-funds text is a plain double-quoted string, so
   * `${totalAmount}` is not replaced by the amount.
   */
  function ErrorMessage(e: SendError): (text: string)
    ensures e.Rpc? ==> text == e.message
    ensures !e.Rpc? ==> |text| > 0
  {
    match e
    case NoUnspentOutputs => "No unspent outputs available"
    case InsufficientFunds(_) => "Insufficient funds. Available: ${totalAmount}, Required: 100"
    case SigningFailed => "Transaction signing failed"
    case Rpc(m) => m
  }

  /** The three errors `send` raises itself carry three different messages. */
  lemma LocalErrorMessagesDistinct(available: real)
    ensures ErrorMessage(NoUnspentOutputs) != ErrorMessage(InsufficientFunds(available))
    ensures ErrorMessage(NoUnspentOutputs) != ErrorMessage(SigningFailed)
    ensures ErrorMessage(InsufficientFunds(available)) != ErrorMessage(SigningFailed)
  {
    assert |ErrorMessage(NoUnspentOutputs)| == 28;
    assert |ErrorMessage(SigningFailed)| == 26;
    assert |ErrorMessage(InsufficientFunds(available))| > 28;
  }

  /** As written, the insufficient-funds message is the same whatever the available amount. */
  lemma InsufficientFundsMessageIgnoresAmount(a: real, b: real)
    ensures ErrorMessage(InsufficientFunds(a)) == ErrorMessage(InsufficientFunds(b))
    ensures ErrorMessage(InsufficientFunds(a)) == "Insufficient funds. Available: ${totalAmount}, Required: 100"
  {
  }

  /**
   * The message evidently intended (a template literal): the available
   * amount, as JavaScript prints the number, between the fixed texts.
   */
  function InsufficientFundsMessage(available: string): (text: string)
    ensures |text| == |available| + 46
  {
    "Insufficient funds. Available: " + available + ", Required: 100"
  }

  /** The intended message shows the amount: distinct amounts give distinct messages. */
  lemma InsufficientFundsMessageShowsAmount(a: string, b: string)
    requires InsufficientFundsMessage(a) == InsufficientFundsMessage(b)
    ensures a == b
  {
    var text := InsufficientFundsMessage(a);
    assert a == text[31..|text| - 15];
    assert b == InsufficientFundsMessage(b)[31..|text| - 15];
  }

  /** The unspent list the node returned, empty when the call failed or returned nothing. */
  function UnspentOf(node: Node): (utxos: seq<Utxo>)
  {
    if node.listUnspent.Success? && node.listUnspent.value.Some? then node.listUnspent.value.value else []
  }

  /** The node listed some outputs but their total is below the payment. */
  predicate Underfunded(node: Node) {
    node.listUnspent.Success? && UnspentOf(node) != [] && Sum(UnspentOf(node)) < Payment
  }

  /** The node listed outputs that together cover the payment. */
  predicate Funded(node: Node) {
    node.listUnspent.Success? && UnspentOf(node) != [] && Sum(UnspentOf(node)) >= Payment
  }

  /** The signer reported a complete signature. */
  predicate SignedCompletely(node: Node) {
    node.signRawTransactionWithWallet.Success? && node.signRawTransactionWithWallet.value.complete
  }

  /** Every call succeeds and every local check passes. */
  predicate Succeeds(node: Node) {
    && Funded(node)
    && node.createRawTransaction.Success?
    && node.fundRawTransaction.Success?
    && SignedCompletely(node)
    && node.sendRawTransaction.Success?
    && node.decodeRawTransaction.Success?
  }

  /** How many broadcasts a trace holds. */
  function BroadcastCount(trace: seq<Call>): (count: nat)
  {
    if trace == [] then 0
    else (if trace[0].SendRawTransaction? then 1 else 0) + BroadcastCount(trace[1..])
  }

  /** Appending a call adds one to the count exactly when it is a broadcast. */
  lemma {:induction false} BroadcastCountSnoc(trace: seq<Call>, call: Call)
    ensures BroadcastCount(trace + [call]) == BroadcastCount(trace) + if call.SendRawTransaction? then 1 else 0
  {
    if trace == [] {
      assert [call][1..] == [];
    } else {
      assert (trace + [call])[1..] == trace[1..] + [call];
      BroadcastCountSnoc(trace[1..], call);
    }
  }

  /** The message of the first failing node call after the unspent list is fetched. */
  function FirstError(node: Node): (message: string)
  {
    if node.createRawTransaction.Failure? then node.createRawTransaction.error
    else if node.fundRawTransaction.Failure? then node.fundRawTransaction.error
    else if node.signRawTransactionWithWallet.Failure? then node.signRawTransactionWithWallet.error
    else if node.sendRawTransaction.Failure? then node.sendRawTransaction.error
    else if node.decodeRawTransaction.Failure? then node.decodeRawTransaction.error
    else ""
  }

  /** The inputs first-fit selection takes from the listed outputs. */
  function SelectedInputs(node: Node): (inputs: seq<InputRef>)
  {
    var u := UnspentOf(node);
    Project(u[..FirstFitLength(u)])
  }

  /**
   * The node-facing half of `send`: create the raw transaction from the
   * selected inputs and the output set, fund it, sign it, and only when the
   * signature is complete broadcast it and decode it. Returns the calls made,
   * in order, and the broadcast's txid or the error thrown.
   */
  method CreateSignAndBroadcast(node: Node, inputs: seq<InputRef>, outputs: map<string, OutputValue>)
    returns (calls: seq<Call>, result: Result<string, SendError>)
    ensures 1 <= |calls| <= 5 && calls[0] == CreateRawTransaction(inputs, outputs)
    // Funding and signing each pass on what the previous step returned.
    ensures |calls| > 1 ==>
      node.createRawTransaction.Success? && calls[1] == FundRawTransaction(node.createRawTransaction.value)
    ensures |calls| > 2 ==>
      node.fundRawTransaction.Success? && calls[2] == SignRawTransactionWithWallet(node.fundRawTransaction.value)
    // Sign gate: the signed hex is broadcast only after a complete signature, and only once.
    ensures BroadcastCount(calls) <= 1
    ensures BroadcastCount(calls) == 1 <==> |calls| > 3
    ensures |calls| > 3 ==>
      SignedCompletely(node) && calls[3] == SendRawTransaction(node.signRawTransactionWithWallet.value.hex)
    ensures node.createRawTransaction.Success? && node.fundRawTransaction.Success? &&
            node.signRawTransactionWithWallet.Success? && !SignedCompletely(node) ==>
      |calls| == 3 && result == Failure(SigningFailed)
    // Success: all five calls were made and the broadcast's txid is returned.
    ensures result.Success? <==>
      node.createRawTransaction.Success? && node.fundRawTransaction.Success? && SignedCompletely(node) &&
      node.sendRawTransaction.Success? && node.decodeRawTransaction.Success?
    ensures result.Success? ==> |calls| == 5 && result.value == node.sendRawTransaction.value
    ensures |calls| == 5 ==>
      node.sendRawTransaction.Success? && calls[4] == DecodeRawTransaction(node.signRawTransactionWithWallet.value.hex)
    // Each successful step leads to the next call.
    ensures node.createRawTransaction.Success? ==> |calls| >= 2
    ensures node.createRawTransaction.Success? && node.fundRawTransaction.Success? ==> |calls| >= 3
    ensures node.createRawTransaction.Success? && node.fundRawTransaction.Success? && SignedCompletely(node) ==>
      |calls| >= 4
    ensures node.createRawTransaction.Success? && node.fundRawTransaction.Success? && SignedCompletely(node) &&
            node.sendRawTransaction.Success? ==>
      |calls| == 5
    // A failure is the sign gate's own error only when every earlier call succeeded;
    // otherwise it is the failing node call's error, passed on unchanged.
    ensures result.Failure? ==>
      result.error == if node.createRawTransaction.Success? && node.fundRawTransaction.Success? &&
                         node.signRawTransactionWithWallet.Success? && !SignedCompletely(node)
                      then SigningFailed else Rpc(FirstError(node))
  {
    var create := CreateRawTransaction(inputs, outputs);
    calls := [create];
    BroadcastCountSnoc([], create);
    if node.createRawTransaction.Failure? {
      return calls, Failure(Rpc(node.createRawTransaction.error));
    }
    var rawTx := node.createRawTransaction.value;

    var fund := FundRawTransaction(rawTx);
    BroadcastCountSnoc(calls, fund);
    calls := calls + [fund];
    if node.fundRawTransaction.Failure? {
      return calls, Failure(Rpc(node.fundRawTransaction.error));
    }
    var fundedHex := node.fundRawTransaction.value;

    var sign := SignRawTransactionWithWallet(fundedHex);
    BroadcastCountSnoc(calls, sign);
    calls := calls + [sign];
    if node.signRawTransactionWithWallet.Failure? {
      return calls, Failure(Rpc(node.signRawTransactionWithWallet.error));
    }
    var signedTx := node.signRawTransactionWithWallet.value;
    if !signedTx.complete {
      return calls, Failure(SigningFailed);
    }

    var broadcast := SendRawTransaction(signedTx.hex);
    BroadcastCountSnoc(calls, broadcast);
    calls := calls + [broadcast];
    if node.sendRawTransaction.Failure? {
      return calls, Failure(Rpc(node.sendRawTransaction.error));
    }
    var txid := node.sendRawTransaction.value;

    var decode := DecodeRawTransaction(signedTx.hex);
    BroadcastCountSnoc(calls, decode);
    calls := calls + [decode];
    if node.decodeRawTransaction.Failure? {
      return calls, Failure(Rpc(node.decodeRawTransaction.error));
    }

    result := Success(txid);
  }

  /**
   * `send(client, addr, data)`. Returns the calls it makes on the node, in
   * order, and the txid it returns or the error it throws. The source ignores
   * `data` and embeds the hard-coded `Message`; here that message is the
   * `message` parameter, so the contract holds whatever text is embedded.
   */
  method Send(node: Node, addr: string, message: string) returns (trace: seq<Call>, result: Result<string, SendError>)
    // The unspent list is fetched first.
    ensures 1 <= |trace| <= 6 && trace[0] == ListUnspent
    // Guards: each fails before any further call.
    ensures node.listUnspent.Failure? ==>
      trace == [ListUnspent] && result == Failure(Rpc(node.listUnspent.error))
    ensures node.listUnspent.Success? && UnspentOf(node) == [] ==>
      trace == [ListUnspent] && result == Failure(NoUnspentOutputs)
    ensures Underfunded(node) ==>
      trace == [ListUnspent] && result == Failure(InsufficientFunds(Sum(UnspentOf(node))))
    // A transaction is built only when funded, from the first-fit inputs and the fixed outputs.
    ensures |trace| > 1 <==> Funded(node)
    ensures |trace| > 1 ==>
      trace[1] == CreateRawTransaction(SelectedInputs(node), Outputs(addr, EmbeddedHex(message)))
    // Funding, signing and decoding each pass on what the previous step returned.
    ensures |trace| > 2 ==>
      node.createRawTransaction.Success? && trace[2] == FundRawTransaction(node.createRawTransaction.value)
    ensures |trace| > 3 ==>
      node.fundRawTransaction.Success? && trace[3] == SignRawTransactionWithWallet(node.fundRawTransaction.value)
    ensures |trace| == 6 ==>
      SignedCompletely(node) && node.sendRawTransaction.Success? && trace[5] == DecodeRawTransaction(node.signRawTransactionWithWallet.value.hex)
    // Each successful step leads to the next call.
    ensures Funded(node) && node.createRawTransaction.Success? ==> |trace| >= 3
    ensures Funded(node) && node.createRawTransaction.Success? && node.fundRawTransaction.Success? ==> |trace| >= 4
    ensures Funded(node) && node.createRawTransaction.Success? && node.fundRawTransaction.Success? &&
            SignedCompletely(node) ==>
      |trace| >= 5
    ensures Funded(node) && node.createRawTransaction.Success? && node.fundRawTransaction.Success? &&
            SignedCompletely(node) && node.sendRawTransaction.Success? ==>
      |trace| == 6
    // Sign gate: a broadcast happens only after a complete signature, and at most once.
    ensures BroadcastCount(trace) <= 1
    ensures BroadcastCount(trace) == 1 <==> |trace| > 4
    ensures |trace| > 4 ==>
      SignedCompletely(node) && trace[4] == SendRawTransaction(node.signRawTransactionWithWallet.value.hex)
    ensures Funded(node) && node.createRawTransaction.Success? && node.fundRawTransaction.Success? &&
            node.signRawTransactionWithWallet.Success? && !SignedCompletely(node) ==>
      BroadcastCount(trace) == 0 && result == Failure(SigningFailed)
    // Success: all six calls were made and the broadcast's txid is returned.
    ensures result.Success? <==> Succeeds(node)
    ensures result.Success? ==> |trace| == 6 && result.value == node.sendRawTransaction.value
    // Past the guards, a failure is the sign gate's own error or the failing node call's error, unchanged.
    ensures Funded(node) && result.Failure? ==>
      result.error == if node.createRawTransaction.Success? && node.fundRawTransaction.Success? &&
                         node.signRawTransactionWithWallet.Success? && !SignedCompletely(node)
                      then SigningFailed else Rpc(FirstError(node))
  {
    var messageHex := EmbeddedHex(message);

    trace := [ListUnspent];
    if node.listUnspent.Failure? {
      return trace, Failure(Rpc(node.listUnspent.error));
    }
    var unspent := node.listUnspent.value;
    if unspent.None? || |unspent.value| == 0 {
      return trace, Failure(NoUnspentOutputs);
    }
    var utxos := unspent.value;

    var totalAmount := Sum(utxos);
    if totalAmount < Payment {
      return trace, Failure(InsufficientFunds(totalAmount));
    }

    assert utxos == UnspentOf(node) && Funded(node);
    var inputs, inputAmount := SelectInputs(utxos);
    assert inputs == SelectedInputs(node);

    var outputs := Outputs(addr, messageHex);

    var calls;
    calls, result := CreateSignAndBroadcast(node, inputs, outputs);
    trace := [ListUnspent] + calls;
    assert trace[1..] == calls;
    assert BroadcastCount(trace) == BroadcastCount(calls);
  }
}
