/** The GBK-to-UTF-8 conversion helpers (`gbkToUTF8`, `gbkToUTF8IR`,
    `gbkToUTF8Net`, `gbkToUTF8Reg`, four identical copies). The GBK decoder
    itself is foreign library code; it is a parameter that yields the decoded
    text, or None when it reports an error. Command output bytes are modelled
    as the string that Go's `string(output)` gives. */
module Encoding {
  import opened Wrappers

  /** The two results of a conversion: the text and whether an error came back. */
  datatype Conversion = Conversion(text: string, failed: bool)

  /** Decodes `data`; when the decoder fails, the original data is returned, with the error. */
  function GbkToUtf8(data: string, decode: string -> Option<string>): (c: Conversion)
    ensures c.failed <==> decode(data).None?
    ensures c.failed ==> c.text == data
    ensures !c.failed ==> c.text == decode(data).value
  {
    match decode(data)
    case Some(t) => Conversion(t, false)
    case None => Conversion(data, true)
  }

  /** The text every caller goes on with: the converted text when there was no
      error, otherwise `string(output)`. */
  function CallerText(data: string, decode: string -> Option<string>): string {
    var c := GbkToUtf8(data, decode);
    if !c.failed then c.text else data
  }

  /** The callers' two branches use the same text: the one the converter returned. */
  lemma CallerTextIsConversionText(data: string, decode: string -> Option<string>)
    ensures CallerText(data, decode) == GbkToUtf8(data, decode).text
  {
  }
}
