/** Reading the body of a COSE message out of its wrapper tags, checking its shape, and decoding the
    byte strings in it (src/strict.rs, src/tag.rs). */
module MessageBodies {
  import opened Values
  import opened StrictParser

  const SELF_DESCRIBED: nat := 55799
  const CWT_TAG: nat := 61

  function Strict(limits: CborLimits, reencode: Bytes -> Result<Bytes>): Rules {
    Rules(limits, true, reencode)
  }

  function Slice(data: Bytes, item: Item): Result<Bytes> {
    if item.start <= item.end <= |data| then Ok(data[item.start..item.end]) else Err(Cbor)
  }

  // ---- shapes -----------------------------------------------------------------------------------

  function RequireKind(item: Item, kind: Kind): Result<()> {
    if item.kind == kind then Ok(()) else Err(UnexpectedType)
  }

  function RequireBytesOrNull(item: Item): Result<()> {
    if item.kind == BytesKind || item.kind == SimpleKind(22) then Ok(()) else Err(UnexpectedType)
  }

  function RecipientShape(item: Item): Result<()>
    decreases item, 1
  {
    var _ :- RequireKind(item, ArrayKind);
    if !(3 <= |item.children| <= 4) then Err(UnexpectedType) else
    var _ :- RequireKind(item.children[0], BytesKind);
    var _ :- RequireKind(item.children[1], MapKind);
    var _ :- RequireBytesOrNull(item.children[2]);
    if |item.children| == 4 then RecipientsShape(item.children[3]) else Ok(())
  }

  function RecipientsShape(item: Item): Result<()>
    decreases item, 1
  {
    var _ :- RequireKind(item, ArrayKind);
    if item.children == [] then Err(Custom) else EveryRecipientShape(item.children)
  }

  function EveryRecipientShape(items: seq<Item>): Result<()>
    decreases items, 0
  {
    if items == [] then Ok(()) else
    var _ :- RecipientShape(items[0]);
    EveryRecipientShape(items[1..])
  }

  function SignatureShape(item: Item): Result<()> {
    var _ :- RequireKind(item, ArrayKind);
    if |item.children| != 3 then Err(UnexpectedType) else
    var _ :- RequireKind(item.children[0], BytesKind);
    var _ :- RequireKind(item.children[1], MapKind);
    RequireKind(item.children[2], BytesKind)
  }

  function EverySignatureShape(items: seq<Item>): Result<()> {
    if items == [] then Ok(()) else
    var _ :- SignatureShape(items[0]);
    EverySignatureShape(items[1..])
  }

  function SignaturesShape(item: Item): Result<()> {
    var _ :- RequireKind(item, ArrayKind);
    if item.children == [] then Err(Custom) else EverySignatureShape(item.children)
  }

  /** How many members a message with the tag has. */
  function MemberCount(tag: nat): Option<nat> {
    if tag == 16 then Some(3)
    else if tag == 17 || tag == 18 || tag == 96 || tag == 98 then Some(4)
    else if tag == 97 then Some(5)
    else None
  }

  function MessageShape(item: Item, tag: nat): Result<()> {
    match MemberCount(tag)
    case None => Err(Custom)
    case Some(expected) =>
      if |item.children| != expected then Err(UnexpectedType) else
      var _ :- RequireKind(item.children[0], BytesKind);
      var _ :- RequireKind(item.children[1], MapKind);
      var _ :- RequireBytesOrNull(item.children[2]);
      if tag == 16 then Ok(())
      else if tag == 17 || tag == 18 then RequireKind(item.children[3], BytesKind)
      else if tag == 96 then RecipientsShape(item.children[3])
      else if tag == 97 then
        var _ :- RequireKind(item.children[3], BytesKind);
        RecipientsShape(item.children[4])
      else SignaturesShape(item.children[3])
  }

  // ---- wrappers ---------------------------------------------------------------------------------

  /** The content of a tag, when `item` is that tag. */
  function Untag(item: Item, tag: nat): Item {
    if item.kind == TagKind(tag) && item.children != [] then item.children[0] else item
  }

  /** The item inside the wrapper tags a message may carry. */
  function BodyItem(item: Item, tag: nat): Result<Item> {
    var current := Untag(item, SELF_DESCRIBED);
    OwnItem(Untag(current, CWT_TAG), current.kind == TagKind(CWT_TAG), tag)
  }

  /** The same once only the message's own tag may be left. */
  function OwnItem(current: Item, wrapped: bool, tag: nat): Result<Item> {
    var tagged := current.kind == TagKind(tag);
    if !tagged && current.kind.TagKind? then Err(Custom) else
    if wrapped && !tagged then Err(Custom) else
    var body := Untag(current, tag);
    if body.kind != ArrayKind then Err(UnexpectedType) else
    var _ :- MessageShape(body, tag);
    Ok(body)
  }

  function MessageBody(data: Bytes, tag: nat, limits: CborLimits, reencode: Bytes -> Result<Bytes>): Result<Bytes> {
    var item :- Root(data, Strict(limits, reencode));
    var body :- BodyItem(item, tag);
    Slice(data, body)
  }

  // ---- byte strings -----------------------------------------------------------------------------

  function BytesOf(data: Bytes, item: Item): Result<Bytes> {
    if item.kind != BytesKind then Err(UnexpectedType)
    else if item.indefinite then BytesOfChunks(data, item.children)
    else if item.contentStart <= item.end <= |data| then Ok(data[item.contentStart..item.end])
    else Err(Cbor)
  }

  function BytesOfChunks(data: Bytes, chunks: seq<Item>): Result<Bytes> {
    if chunks == [] then Ok([]) else
    var first :- BytesOf(data, chunks[0]);
    var rest :- BytesOfChunks(data, chunks[1..]);
    Ok(first + rest)
  }

  function DecodeBytes(data: Bytes, reencode: Bytes -> Result<Bytes>): Result<Bytes> {
    var item :- Root(data, Strict(DEFAULT_LIMITS, reencode));
    if item.kind != BytesKind then Err(UnexpectedType) else BytesOf(data, item)
  }

  function DecodeOptionalBytes(data: Bytes, reencode: Bytes -> Result<Bytes>): Result<Option<Bytes>> {
    var item :- Root(data, Strict(DEFAULT_LIMITS, reencode));
    if item.kind == SimpleKind(22) then Ok(None) else
    var bytes :- BytesOf(data, item);
    Ok(Some(bytes))
  }

  /** Appends the content of a byte string to a buffer, chunk by chunk. */
  class Output {
    var bytes: Bytes

    constructor ()
      ensures bytes == []
    {
      bytes := [];
    }

    method AppendBytes(data: Bytes, item: Item) returns (r: Result<()>)
      modifies this
      ensures match BytesOf(data, item)
              case Ok(content) => r == Ok(()) && bytes == old(bytes) + content
              case Err(e) => r == Err(e)
      decreases item
    {
      if item.kind != BytesKind {
        return Err(UnexpectedType);
      }
      if item.indefinite {
        var i := 0;
        ghost var whole := BytesOfChunks(data, item.children);
        ghost var from := bytes;
        ghost var done: Bytes := [];
        assert item.children[0..] == item.children;
        assert whole.Ok? ==> done + whole.value == whole.value;
        while i < |item.children|
          invariant 0 <= i <= |item.children| && bytes == from + done
          invariant whole == match BytesOfChunks(data, item.children[i..]) case Ok(rest) => Ok(done + rest) case Err(e) => Err(e)
        {
          assert item.children[i..][1..] == item.children[i + 1..];
          var _ :- AppendBytes(data, item.children[i]);
          ghost var content := BytesOf(data, item.children[i]).value;
          ghost var rest := BytesOfChunks(data, item.children[i + 1..]);
          assert rest.Ok? ==> done + (content + rest.value) == done + content + rest.value;
          done := done + content;
          i := i + 1;
        }
        assert done + [] == done;
        return Ok(());
      }
      if !(item.contentStart <= item.end <= |data|) {
        return Err(Cbor);
      }
      bytes := bytes + data[item.contentStart..item.end];
      r := Ok(());
    }
  }
}
