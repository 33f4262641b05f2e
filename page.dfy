/**
 * `mod page`: the shapes of the three record fields the library reads, and
 * the fetch of one field of one record.
 */
module Page {
  import opened Wrappers
  import opened Http

  /** A number field: `{"number": n}`. */
  datatype Number = Number(number: i32)

  /** A rich-text segment's plain text. */
  datatype Text = Text(plain_text: string)

  /** One segment of a title field. */
  datatype TitleResult = TitleResult(title: Text)

  /** A title field: `{"results": [{"title": {"plain_text": ...}}, ...]}`. */
  datatype Title = Title(results: seq<TitleResult>)

  /** One option of a multi-select field. */
  datatype Select = Select(name: string)

  /** A multi-select field: `{"multi_select": [{"name": ...}, ...]}`. */
  datatype MultiSelect = MultiSelect(multi_select: seq<Select>)

  /**
   * `page::property`: GET field `id` of record `page` and decode it. The
   * remote answers with `properties(id, page)`.
   */
  function Property<T>(properties: (string, string) -> Exchange, id: string, page: string, parse: string -> Option<T>): (r: Result<T, AppError>)
    ensures properties(id, page).Failure? ==> r == Failure(properties(id, page).error)
    ensures properties(id, page).Success? ==> r == Classify(properties(id, page).value, parse)
  {
    Fetch(properties(id, page), parse)
  }
}
