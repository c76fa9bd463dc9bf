/**
 * The wallet step of `main`: try to create the wallet; when creation fails
 * with an error whose message contains "Wallet already exists", load it
 * instead. Any other creation error is caught and dropped, and the run goes on.
 */
module Wallet {
  import opened Wrappers

  const WalletName: string := "testwallet"

  /** The text the creation error is searched for. */
  const AlreadyExists: string := "Wallet already exists"

  /** A wallet call `main` makes on the node. */
  datatype WalletCall = CreateWallet(name: string) | LoadWallet(name: string)

  /**
   * What the step did: the calls it made, and the error that escapes it
   * (which ends the run), if any.
   */
  datatype WalletStep = WalletStep(calls: seq<WalletCall>, escaped: Option<string>)

  /** `s.includes(part)`: part occurs in s at some position (the empty string occurs everywhere). */
  function Includes(s: string, part: string): (found: bool)
    ensures part <= s ==> found
    ensures found ==> |part| <= |s|
  {
    part <= s || (s != [] && Includes(s[1..], part))
  }

  /** `part` occurs in `s` starting at position i. */
  predicate OccursAt(s: string, part: string, i: int) {
    0 <= i <= |s| - |part| && s[i..i + |part|] == part
  }

  /** Includes agrees with the definition by position. */
  lemma {:induction false} IncludesIffOccurs(s: string, part: string)
    ensures Includes(s, part) <==> exists i :: OccursAt(s, part, i)
  {
    if part <= s {
      assert OccursAt(s, part, 0);
    } else if s != [] {
      IncludesIffOccurs(s[1..], part);
      OccursInTail(s, part);
    }
  }

  /** When part is not a prefix of s, it occurs in s exactly when it occurs in s's tail. */
  lemma OccursInTail(s: string, part: string)
    requires s != [] && !(part <= s)
    ensures (exists i :: OccursAt(s, part, i)) <==> exists i :: OccursAt(s[1..], part, i)
  {
    if exists i :: OccursAt(s, part, i) {
      var i :| OccursAt(s, part, i);
      assert i != 0;
      assert OccursAt(s[1..], part, i - 1);
    }
    if exists i :: OccursAt(s[1..], part, i) {
      var i :| OccursAt(s[1..], part, i);
      assert OccursAt(s, part, i + 1);
    }
  }

  /**
   * The create-or-load step, given the node's replies to `createWallet` and
   * `loadWallet` (a `Failure` carries the thrown error's message).
   */
  function EnsureWallet(create: Result<(), string>, load: Result<(), string>): (step: WalletStep)
    ensures 1 <= |step.calls| <= 2 && step.calls[0] == CreateWallet(WalletName)
    // A wallet that was just created is ready: no further call, no error.
    ensures create.Success? ==> step == WalletStep([CreateWallet(WalletName)], None)
  {
    match create
    case Success(_) => WalletStep([CreateWallet(WalletName)], None)
    case Failure(message) =>
      if Includes(message, AlreadyExists) then
        WalletStep([CreateWallet(WalletName), LoadWallet(WalletName)],
                   if load.Failure? then Some(load.error) else None)
      else
        WalletStep([CreateWallet(WalletName)], None)
  }

  /** The wallet is loaded exactly when creation failed with a message containing "Wallet already exists". */
  lemma LoadIffAlreadyExists(create: Result<(), string>, load: Result<(), string>)
    ensures LoadWallet(WalletName) in EnsureWallet(create, load).calls <==>
      create.Failure? && exists i :: OccursAt(create.error, AlreadyExists, i)
  {
    if create.Failure? {
      IncludesIffOccurs(create.error, AlreadyExists);
    }
  }

  /** Only a failed load ends the run; every creation error is either recovered from or dropped. */
  lemma OnlyLoadFailureEscapes(create: Result<(), string>, load: Result<(), string>)
    ensures EnsureWallet(create, load).escaped.Some? <==>
      LoadWallet(WalletName) in EnsureWallet(create, load).calls && load.Failure?
    ensures EnsureWallet(create, load).escaped.Some? ==> EnsureWallet(create, load).escaped.value == load.error
  {
  }

  /** A creation error that does not mention an existing wallet is swallowed: nothing escapes and nothing is loaded. */
  lemma OtherCreateErrorsSwallowed(message: string, load: Result<(), string>)
    requires !Includes(message, AlreadyExists)
    ensures EnsureWallet(Failure(message), load) == WalletStep([CreateWallet(WalletName)], None)
  {
  }
}
