/** Why a decoded message may leave nested recipients to the deserializer: the strict pass over the
    message already bounds how deep they nest (src/recipient.rs, src/strict.rs). */
module RecipientLimits {
  import opened Values
  import opened Syntax
  import opened StrictParser
  import opened MessageBodies
  import opened MessageLaws
  import R = Recipients

  /** Where the recipients of a message with several recipients stand. */
  function RecipientsAt(tag: nat): nat {
    if tag == 96 then 3 else 4
  }

  /** For every COSE_Encrypt or COSE_Mac message read under the default limits, checking the top layer
      of the deserialized recipients gives the verdict of the full recursive check. */
  lemma DecodedCheckIsFullCheck(data: Bytes, tag: nat, reencode: Bytes -> Result<Bytes>, env: R.Environment) returns (message: Value)
    requires tag == 96 || tag == 97
    requires MessageBody(data, tag, CborLimits(128, 100_000, false), reencode).Ok?
    ensures Message(message, tag)
    ensures exists s :: WellFormed(s) && Ser(s) == MessageBody(data, tag, CborLimits(128, 100_000, false), reencode).value && Den(s) == message
    ensures var decoded := R.DeserializeAll(message.items[RecipientsAt(tag)].items, env);
            decoded.Ok? ==>
              && R.LayersOf(decoded.value) <= 63
              && R.ValidateMessageRecipients(decoded.value, env) == R.ValidateDecodedRecipients(decoded.value)
  {
    var self, cwt, own, body := BodyIsWrapped(data, tag, CborLimits(128, 100_000, false), reencode);
    message := Den(body);
    HeightWithinNesting(body);
    if R.DeserializeAll(message.items[RecipientsAt(tag)].items, env).Ok? {
      R.SplitCheckEquivalent(message.items, RecipientsAt(tag), env);
    }
  }
}
