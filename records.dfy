/** The spin record as the bot holds it: the dictionary `data_spin_item`
    that `json.loads` makes of a playlist row's `data-spin` attribute and
    that the scraper then updates, together with the ways a cycle can fail. */
module Records {
  import opened Wrappers

  /** A value held in the dictionary: JSON `null` (Python `None`), a string,
      or anything else JSON can give (a number, a boolean, a list, an object),
      which compares unequal to every string and cannot be concatenated to one. */
  datatype Value = Null | Str(s: string) | NonString

  /** `data_spin_item`: string keys to values. */
  type Dict = map<string, Value>

  /** Why a cycle stops: each is an exception that ends the polling process. */
  datatype Fault =
    | FetchFailed                 // the playlist page did not answer 200
    | DataSpinLoadsDict           // json.loads handed a dict instead of text
    | DataSpinUnreadable          // data-spin attribute missing, or not a JSON object
    | MissingCell(cls: string)    // a row without the <td> of that class
    | MissingKey(key: string)     // KeyError on the dictionary
    | NotAString(key: string)     // TypeError: a non-string used as a string
    | PublishFailed               // image download, media upload or status post raised

  /** The key holds a string. */
  predicate IsStrField(d: Dict, key: string) {
    key in d && d[key].Str?
  }

  /** `d[key]` used as a string: KeyError when absent, TypeError when not a string. */
  function Field(d: Dict, key: string): (r: Result<string, Fault>)
    ensures r.Ok? <==> IsStrField(d, key)
    ensures r.Ok? ==> d[key] == Str(r.value)
    ensures r.Err? ==> r.error == (if key in d then NotAString(key) else MissingKey(key))
  {
    if key !in d then Err(MissingKey(key))
    else if d[key].Str? then Ok(d[key].s)
    else Err(NotAString(key))
  }

  /** The id of the record that stands for "no current spin". */
  const NotFoundId := "notfound"

  /** The record that stands for "no current spin". */
  const NotFoundItem: Dict := map[
    "i" := Str(NotFoundId),
    "a" := Str("artist_not_found"),
    "s" := Str("song_not_found"),
    "r" := Str("album_not_found")
  ]
}
