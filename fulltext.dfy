/** The fulltext format interface (`FulltextInterface`): a format turns a
    parsed XML tree into raw text and into MiniOCR, and needs nothing else.
    The formats are the variants of a datatype; ALTO is the one there is. */
module Fulltext {
  import opened Wrappers
  import Xml
  import Strings
  import MiniOcr
  import MiniOcrReader
  import Alto

  datatype Format = AltoFormat
  {
    /** `getRawText($xml)`: the raw, unformatted fulltext. */
    function GetRawText(xml: Xml.Node): (r: string)
      ensures Alto.RawWords(xml) == [] ==> r == ""
      ensures Alto.RawWords(xml) != [] ==>
        |r| == Strings.TotalLength(Alto.RawWords(xml)) + |Alto.RawWords(xml)| - 1
      ensures (forall i :: 0 <= i < |Alto.RawWords(xml)| ==> ' ' !in Alto.RawWords(xml)[i])
              && Alto.RawWords(xml) != []
              ==> Strings.Split(r, ' ') == Alto.RawWords(xml)
      ensures forall i :: 0 <= i < |Alto.RawWords(xml)| ==>
                Strings.OccursAt(r, Alto.RawWords(xml)[i], Strings.WordStart(Alto.RawWords(xml), i))
      ensures forall i :: 0 < i < |Alto.RawWords(xml)| ==>
                Strings.OccursAt(r, " ", Strings.WordStart(Alto.RawWords(xml), i) - 1)
    {
      match this
      case AltoFormat => Alto.GetRawText(xml)
    }

    /** `getTextAsMiniOcr($xml)`: the fulltext as a MiniOCR document, or ""
        when the page has no text block.  Reading the document back gives
        the MiniOCR tree of the page's blocks. */
    method GetTextAsMiniOcr(xml: Xml.Node) returns (r: string)
      ensures r == "" <==> Alto.Blocks(xml) == []
      ensures r != "" ==>
        MiniOcrReader.Parse(r) == Some(Alto.MiniOcrDoc(Alto.Blocks(xml)))
    {
      match this
      case AltoFormat =>
        r := Alto.GetTextAsMiniOcr(xml, MiniOcr.AsXml);
        if Alto.Blocks(xml) != [] {
          MiniOcrReader.ReadSerialized(Alto.MiniOcrDoc(Alto.Blocks(xml)));
        }
    }
  }
}
