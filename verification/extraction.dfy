/** The records one page contributes: one per matched element, in element
    order, with whitespace collapsed. */
module Extraction {
  import opened Text
  import opened Web

  /** The records `_extract_data_from_page` appends for a page whose
      matched elements have the texts `texts`. */
  function PageRecords(prompt: string, pageNum: int, texts: seq<string>): seq<Record> {
    seq(|texts|, i requires 0 <= i < |texts| => Record(prompt, pageNum, Collapse(texts[i])))
  }

  /** A page yields exactly one record per matched element, in element
      order; each carries the prompt unchanged and the page number, and its
      content is normalised and keeps the element's non-whitespace
      characters in order. */
  lemma PageRecordsShape(prompt: string, pageNum: int, texts: seq<string>)
    ensures |PageRecords(prompt, pageNum, texts)| == |texts|
    ensures forall i :: 0 <= i < |texts| ==>
      var r := PageRecords(prompt, pageNum, texts)[i];
      && r.prompt == prompt && r.page == pageNum
      && Normalised(r.content)
      && NonSpaces(r.content) == NonSpaces(texts[i])
      && r.content == Collapse(texts[i])
  {
    forall i | 0 <= i < |texts|
      ensures Normalised(Collapse(texts[i])) && NonSpaces(Collapse(texts[i])) == NonSpaces(texts[i])
    {
      CollapseNormalised(texts[i]);
      CollapseKeepsNonSpaces(texts[i]);
    }
  }

  /** Extraction of a page concatenates: the records of a text list split
      in two are the records of each part. */
  lemma PageRecordsAppend(prompt: string, pageNum: int, texts: seq<string>, t: string)
    ensures PageRecords(prompt, pageNum, texts + [t])
         == PageRecords(prompt, pageNum, texts) + [Record(prompt, pageNum, Collapse(t))]
  {
  }
}
