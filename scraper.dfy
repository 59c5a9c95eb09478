/** The record-shaping part of `get_current_song`: the parsed playlist row
    becomes the dictionary `data_spin_item` through a few in-place updates
    (played time, id fallback, resized cover URL, image status). */
module Scraper {
  import opened Wrappers
  import opened PyStr
  import opened Records

  /** The size token in Spinitron cover URLs that the configured size replaces. */
  const SizeToken := "170x170"

  /** Spinitron's generic "no cover" image,
      https://spinitron.com/static/pictures/placeholders/loudspeaker.svg,
      written in pieces so that the verifier can look at its characters. */
  const Placeholder := "https://spinitron.com" + "/static/pictures" + "/placeholders" + "/loudspeaker.svg"

  /** An <img> tag; `src` is None when the attribute is missing. */
  datatype Img = Img(src: Option<string>)

  /** The <td class="spin-art"> cell, with its <img> if it has one. */
  datatype ArtCell = ArtCell(img: Option<Img>)

  /** The first <tr class="spin-item"> row, already parsed: the result of
      `json.loads` on its data-spin attribute (None when the attribute is
      missing or is not a JSON object), the stripped text of its spin-time
      cell and its spin-art cell (None when the cell is missing). */
  datatype Row = Row(dataSpin: Option<Dict>, timeText: Option<string>, artCell: Option<ArtCell>)

  /** The answer to the playlist request: its status code and, when the
      HTML holds one, the first spin row. */
  datatype Page = Page(status: int, row: Option<Row>)

  /** The row has an <img> whose src is present and non-empty (Python-truthy). */
  predicate HasSrc(row: Row) {
    && row.artCell.Some?
    && row.artCell.value.img.Some?
    && row.artCell.value.img.value.src.Some?
    && row.artCell.value.img.value.src.value != ""
  }

  /** The row makes the record shaping raise: no parsable data-spin, no
      spin-time cell, no "i" key, a null "i" without an "s" key, no spin-art
      cell, or an <img> without src when the dictionary has no "image" key. */
  predicate RowUnusable(row: Row) {
    || row.dataSpin.None?
    || row.timeText.None?
    || "i" !in row.dataSpin.value
    || (row.dataSpin.value["i"] == Null && "s" !in row.dataSpin.value)
    || row.artCell.None?
    || (row.artCell.value.img.Some? && !HasSrc(row) && "image" !in row.dataSpin.value)
  }

  /** The keys the shaping may write. */
  const ShapedKeys: set<string> := {"time", "i", "image", "image_status"}

  /** `item` is what the shaping makes of `row`: the data-spin keys are kept,
      "time" is the spin time, "i" falls back to the title when it is null,
      "image" is the src with every size token replaced, and "image_status"
      (set only when the row has an <img>) is "no image" exactly when "image"
      is the placeholder and "image" otherwise. */
  ghost predicate ShapedFrom(row: Row, size: string, item: Dict) {
    && !RowUnusable(row)
    && var raw := row.dataSpin.value;
       var img := row.artCell.value.img;
       && item.Keys == raw.Keys + {"time"}
                       + (if HasSrc(row) then {"image"} else {})
                       + (if img.Some? then {"image_status"} else {})
       && (forall k :: k in raw && k !in ShapedKeys ==> item[k] == raw[k])
       && item["time"] == Str(row.timeText.value)
       && item["i"] == (if raw["i"] == Null then raw["s"] else raw["i"])
       && (HasSrc(row) ==> item["image"] == Str(Replace(img.value.src.value, SizeToken, size)))
       && (!HasSrc(row) && "image" in raw ==> item["image"] == raw["image"])
       && (img.None? && "image_status" in raw ==> item["image_status"] == raw["image_status"])
       && (img.Some? ==> (item["image_status"] == Str("no image") <==> item["image"] == Str(Placeholder)))
       && (img.Some? ==> item["image_status"] == Str("no image") || item["image_status"] == Str("image"))
  }

  /** Lines 66-89 for a row that was found: start from the data-spin
      dictionary and update it in place. */
  method ShapeRow(row: Row, size: string) returns (r: Result<Dict, Fault>)
    ensures r.Err? <==> RowUnusable(row)
    ensures r.Ok? ==> ShapedFrom(row, size, r.value)
  {
    if row.dataSpin.None? {
      return Err(DataSpinUnreadable);
    }
    var item := row.dataSpin.value;
    if row.timeText.None? {
      return Err(MissingCell("spin-time"));
    }
    item := item["time" := Str(row.timeText.value)];
    if "i" !in item {
      return Err(MissingKey("i"));
    }
    if item["i"] == Null {
      if "s" !in item {
        return Err(MissingKey("s"));
      }
      item := item["i" := item["s"]];
    }
    if row.artCell.None? {
      return Err(MissingCell("spin-art"));
    }
    var img := row.artCell.value.img;
    if img.Some? {
      var src := img.value.src;
      if src.Some? && src.value != "" {
        item := item["image" := Str(Replace(src.value, SizeToken, size))];
      }
      if "image" !in item {
        return Err(MissingKey("image"));
      }
      item := item["image_status" := if item["image"] == Str(Placeholder) then Str("no image") else Str("image")];
    }
    return Ok(item);
  }

  /** What `get_current_song` gives for a page, as it is meant to work: a
      failed request raises, a page without a spin row gives the not-found
      record, and a row raises exactly when it is unusable and is otherwise
      shaped from its data-spin dictionary. */
  ghost predicate Scraped(page: Page, size: string, r: Result<Dict, Fault>) {
    && (page.status != 200 ==> r == Err(FetchFailed))
    && (page.status == 200 && page.row.None? ==> r == Ok(NotFoundItem))
    && (page.status == 200 && page.row.Some? ==>
          && (r.Err? <==> RowUnusable(page.row.value))
          && (r.Ok? ==> ShapedFrom(page.row.value, size, r.value)))
  }

  /** `get_current_song` as it is meant to work: a failed request raises,
      a page without a spin row gives the not-found record, and a row is
      shaped by `ShapeRow`. */
  method GetCurrentSong(page: Page, size: string) returns (r: Result<Dict, Fault>)
    ensures Scraped(page, size, r)
  {
    if page.status != 200 {
      // data_spin_item is never bound, so the return raises
      return Err(FetchFailed);
    }
    if page.row.None? {
      return Ok(NotFoundItem);
    }
    r := ShapeRow(page.row.value, size);
  }

  /** `get_current_song` as written: on a page without a spin row the
      not-found literal is passed to `json.loads`, which raises (and the art
      lookup after it would dereference the missing row as well). */
  method GetCurrentSongAsWritten(page: Page, size: string) returns (r: Result<Dict, Fault>)
    ensures page.status != 200 ==> r == Err(FetchFailed)
    ensures page.status == 200 && page.row.None? ==> r == Err(DataSpinLoadsDict)
    ensures page.status == 200 && page.row.Some? ==>
              && (r.Err? <==> RowUnusable(page.row.value))
              && (r.Ok? ==> ShapedFrom(page.row.value, size, r.value))
  {
    if page.status != 200 {
      return Err(FetchFailed);
    }
    if page.row.None? {
      return Err(DataSpinLoadsDict);
    }
    r := ShapeRow(page.row.value, size);
  }

  /** A src that already is the placeholder keeps it whatever the configured
      size, so such a row is classified "no image". */
  lemma PlaceholderSurvivesResize(size: string)
    ensures Replace(Placeholder, SizeToken, size) == Placeholder
  {
    assert SizeToken[0] == '1';
    assert '1' !in "https://spinitron.com" && '1' !in "/static/pictures";
    assert '1' !in "/placeholders" && '1' !in "/loudspeaker.svg";
    AbsentFirstCharNotContained(Placeholder, SizeToken);
    ReplaceWithoutPattern(Placeholder, SizeToken, size);
  }

  /** A row whose <img> src is the placeholder is shaped with the
      placeholder as "image" and "no image" as its status, whatever the
      configured size. */
  lemma PlaceholderRowIsNoImage(row: Row, size: string, item: Dict)
    requires ShapedFrom(row, size, item)
    requires HasSrc(row) && row.artCell.value.img.value.src.value == Placeholder
    ensures item["image"] == Str(Placeholder)
    ensures item["image_status"] == Str("no image")
  {
    PlaceholderSurvivesResize(size);
  }
}
