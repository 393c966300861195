/** The text and formula readers the record handlers call but that live
    elsewhere (`globals.getRichText`, `globals.getUnicodeRichExtText`,
    `ByteStream.readUnicodeString`, `globals.encodeName`, `globals.getTextBytes`,
    `globals.getValueOrUnknown` and `formula.FormulaParser`). Their code is
    not part of this model, so they are parameters: each reader is a function
    from the bytes it is given to the text it decodes and the number of bytes
    it used, and the name lookup a function from a name table and an index to
    the text shown. A reader that claims more bytes than it was given makes
    the record fail with `BufferUnderrun`, as the bounds-checked stream would. */
module Collab {
  import opened Stream

  datatype TextRead = TextRead(text: string, consumed: nat)

  datatype Collaborators = Collaborators(
    richText: (seq<Byte>, Option<nat>) -> TextRead,       // getRichText(bytes[, textLen])
    unicodeRichExtText: seq<Byte> -> TextRead,             // getUnicodeRichExtText(bytes)
    unicodeString: (seq<Byte>, Option<nat>) -> TextRead,   // readUnicodeString([cch]) on the rest
    encodeName: string -> string,                          // encodeName(text)
    textBytes: seq<Byte> -> string,                        // getTextBytes(bytes)
    formulaText: seq<Byte> -> string,                      // FormulaParser(bytes).getText()
    valueOrUnknown: (seq<string>, nat) -> string)          // getValueOrUnknown(names, index)

  /** `readUnicodeString`: decode from the current position and step over the
      bytes the decoder used. */
  method ReadUnicodeString(s: ByteStream, c: Collaborators, cch: Option<nat>) returns (r: Result<string>)
    requires s.Valid()
    modifies s
    ensures s.Valid()
    ensures var t := c.unicodeString(old(s.bytes[s.pos..]), cch);
      (r.Success? <==> t.consumed <= old(s.Remaining())) &&
      (r.Success? ==> r.value == t.text && s.pos == old(s.pos) + t.consumed) &&
      (r.Failure? ==> r.error == BufferUnderrun)
  {
    var t := c.unicodeString(s.bytes[s.pos..], cch);
    var moved := s.MoveForward(t.consumed);
    if moved.Failure? {
      return Failure(BufferUnderrun);
    }
    r := Success(t.text);
  }
}
