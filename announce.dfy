/** What `post_to_mastodon` publishes for a record: the status text, the
    alt text of the cover, and whether the cover is uploaded and attached.
    The Mastodon calls themselves are represented by the action chosen. */
module Announce {
  import opened Wrappers
  import opened Records
  import Scraper

  /** The Mastodon call(s) made: upload the image at `imageUrl` with `alt`
      as its description and post `text` with it attached, or post `text` alone. */
  datatype Action =
    | PostWithMedia(text: string, alt: string, imageUrl: string)
    | PostText(text: string)
  {
    function Text(): string {
      match this
      case PostWithMedia(t, _, _) => t
      case PostText(t) => t
    }
  }

  /** The status text of a record: played time, title, artist and album,
      each read from the record as a string. */
  function AnnouncementText(song: Dict): (r: Result<string, Fault>)
    ensures r.Ok? <==> IsStrField(song, "time") && IsStrField(song, "s") && IsStrField(song, "a") && IsStrField(song, "r")
    ensures r.Ok? ==> r.value == song["time"].s + " " + song["s"].s + " by " + song["a"].s + " from " + song["r"].s
  {
    match Field(song, "time")
    case Err(e) => Err(e)
    case Ok(time) =>
      match Field(song, "s")
      case Err(e) => Err(e)
      case Ok(title) =>
        match Field(song, "a")
        case Err(e) => Err(e)
        case Ok(artist) =>
          match Field(song, "r")
          case Err(e) => Err(e)
          case Ok(album) => Ok(time + " " + title + " by " + artist + " from " + album)
  }

  /** The description given to an uploaded cover. */
  function CoverAltText(album: string, artist: string): string {
    "An image of the cover of the record album '" + album + "' by " + artist
  }

  /** The call `post_to_mastodon` makes for a record: with the cover when its
      image status is "image", text only otherwise; it raises when a field it
      reads is missing or not a string. */
  function PostAction(song: Dict): (r: Result<Action, Fault>)
    ensures r.Ok? <==>
              && AnnouncementText(song).Ok?
              && "image_status" in song
              && (song["image_status"] == Str("image") ==> IsStrField(song, "image"))
    ensures r.Ok? ==> r.value.Text() == AnnouncementText(song).value
    ensures r.Ok? ==> (r.value.PostWithMedia? <==> song["image_status"] == Str("image"))
    ensures r.Ok? && r.value.PostWithMedia? ==>
              && r.value.imageUrl == song["image"].s
              && r.value.alt == "An image of the cover of the record album '" + song["r"].s + "' by " + song["a"].s
  {
    match AnnouncementText(song)
    case Err(e) => Err(e)
    case Ok(text) =>
      if "image_status" !in song then Err(MissingKey("image_status"))
      else if song["image_status"] == Str("image") then
        match Field(song, "image")
        case Err(e) => Err(e)
        case Ok(url) => Ok(PostWithMedia(text, CoverAltText(song["r"].s, song["a"].s), url))
      else Ok(PostText(text))
  }

  /** For a record whose image status was set by the scraper's
      classification, the cover is attached exactly when the image is not
      Spinitron's placeholder. */
  lemma MediaIffRealCover(song: Dict)
    requires "image" in song && "image_status" in song
    requires song["image_status"] == (if song["image"] == Str(Scraper.Placeholder) then Str("no image") else Str("image"))
    requires PostAction(song).Ok?
    ensures PostAction(song).value.PostWithMedia? <==> song["image"] != Str(Scraper.Placeholder)
  {
  }
}
