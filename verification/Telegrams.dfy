/** Telegrams, the transactions of the chain, as the pool and the executor see them. */
module Telegrams {
  import opened Common

  type Hash = nat

  datatype TeleType = LegacyTx | StateTx

  /**
   `signature` stands for the sender's signature, `response` for the answer of
   the provider with its signature, and `size` for the length of the encoding.
   */
  datatype Telegram = Telegram(kind: TeleType, nonce: nat, gasPrice: nat, gas: nat, to: Option<Address>, value: nat,
                               input: seq<int>, from: Address, signature: nat, provider: Address, response: nat, size: nat)

  const NO_ADDRESS: Address := 0

  /** Recovers who signed a telegram and who signed its response. */
  datatype Signer = Signer(sender: Telegram -> Option<Address>, provider: Telegram -> Option<Address>)

  /** The sender's signature covers neither the sender's address nor the response. */
  ghost predicate SignsContent(sender: Telegram -> Option<Address>) {
    forall t: Telegram, a: Address, p: Address, r: nat :: sender(t.(from := a, provider := p, response := r)) == sender(t)
  }

  /** The telegram names the sender that its signature recovers to. */
  ghost predicate Signed(sender: Telegram -> Option<Address>, t: Telegram) {
    sender(t) == Some(t.from)
  }
}
