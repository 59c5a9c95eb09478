/** The state file, the Mastodon account and the polling loop: each cycle
    reads the last posted id from the state file, skips a record it has
    already posted or the not-found record, and otherwise posts and then
    writes the new id. */
module Poller {
  import opened Wrappers
  import opened PyStr
  import opened Records
  import opened Announce
  import Scraper

  /** What `read_state` writes and returns when it cannot read the file. */
  const StartingUp := "starting up"

  /** What `read_state` returns for the file's contents (None: the file
      is missing or cannot be read). */
  function StoredId(file: Option<string>): string {
    if file.None? then StartingUp else Strip(FirstLine(file.value))
  }

  /** The file's contents once `read_state` has run. */
  function FileAfterRead(file: Option<string>): string {
    if file.None? then StartingUp else file.value
  }

  /** The contents `write_state` leaves: `open(..., 'w')` truncates the file
      before `write` raises on a value that is not a string. */
  function Written(id: Value): string {
    if id.Str? then id.s else ""
  }

  /** The outcome of `post_to_mastodon` for a record: the action taken, or
      the fault it raises (a field it reads, or Mastodon, failing). */
  function PostOutcome(song: Dict, platformUp: bool): Result<Action, Fault> {
    match PostAction(song)
    case Err(e) => Err(e)
    case Ok(a) => if platformUp then Ok(a) else Err(PublishFailed)
  }

  /** What one pass of the loop does. */
  datatype Decision =
    | SkipAlreadyPosted
    | SkipNotFound
    | Posted(action: Action, writeFault: Option<Fault>)   // the post was made; writing the id may still raise
    | Crashed(fault: Fault)                               // raised before anything was posted

  /** A cycle's decision and the state file it leaves. */
  datatype Outcome = Outcome(decision: Decision, file: Option<string>)

  /** One pass of the loop body on the scraped record: the specification
      of `Bot.Cycle`. */
  function Step(file: Option<string>, scraped: Result<Dict, Fault>, platformUp: bool): Outcome {
    match scraped
    case Err(e) => Outcome(Crashed(e), file)
    case Ok(song) =>
      var last := StoredId(file);
      var read := Some(FileAfterRead(file));
      if "i" !in song then Outcome(Crashed(MissingKey("i")), read)
      else if song["i"] == Str(last) then
        // the "already posted" message reads `s`, then `a`
        if "s" !in song then Outcome(Crashed(MissingKey("s")), read)
        else if "a" !in song then Outcome(Crashed(MissingKey("a")), read)
        else Outcome(SkipAlreadyPosted, read)
      else if song["i"] == Str(NotFoundId) then Outcome(SkipNotFound, read)
      else match PostOutcome(song, platformUp)
        case Err(e) => Outcome(Crashed(e), read)
        case Ok(a) =>
          Outcome(Posted(a, if song["i"].Str? then None else Some(NotAString("i"))), Some(Written(song["i"])))
  }

  /** The bot's persistent world: the contents of the state file and the
      statuses it has created on its Mastodon account. */
  class Bot {
    var stateFile: Option<string>
    var timeline: seq<Action>

    constructor (file: Option<string>)
      ensures stateFile == file && timeline == []
    {
      stateFile := file;
      timeline := [];
    }

    /** `write_state`: replace the file's contents with the id. */
    method WriteState(id: Value) returns (ok: bool)
      modifies this`stateFile
      ensures stateFile == Some(Written(id))
      ensures ok <==> id.Str?
    {
      stateFile := Some(Written(id));
      ok := id.Str?;
    }

    /** `read_state`: the first line of the file, stripped; when the file
        cannot be read, write "starting up" to it and return that. */
    method ReadState() returns (state: string)
      modifies this`stateFile
      ensures state == StoredId(old(stateFile))
      ensures stateFile == Some(FileAfterRead(old(stateFile)))
    {
      match stateFile
      case None =>
        state := StartingUp;
        var _ := WriteState(Str(state));
      case Some(contents) =>
        state := Strip(FirstLine(contents));
    }

    /** `post_to_mastodon`: a status is added to the account only when every
        field it reads is there and Mastodon accepts the calls. */
    method PostToMastodon(song: Dict, platformUp: bool) returns (r: Result<Action, Fault>)
      modifies this`timeline
      ensures r == PostOutcome(song, platformUp)
      ensures timeline == old(timeline) + (if r.Ok? then [r.value] else [])
    {
      r := PostOutcome(song, platformUp);
      if r.Ok? {
        timeline := timeline + [r.value];
      }
    }

    /** The loop body after the scrape: read the state, then skip, or post
        and write the new id. */
    method Cycle(scraped: Result<Dict, Fault>, platformUp: bool) returns (d: Decision)
      modifies this
      ensures d == Step(old(stateFile), scraped, platformUp).decision
      ensures stateFile == Step(old(stateFile), scraped, platformUp).file
      ensures timeline == old(timeline) + (if d.Posted? then [d.action] else [])
    {
      if scraped.Err? {
        return Crashed(scraped.error);
      }
      var song := scraped.value;
      var lastPost := ReadState();
      if "i" !in song {
        return Crashed(MissingKey("i"));
      }
      if song["i"] != Str(lastPost) {
        if song["i"] == Str(NotFoundId) {
          d := SkipNotFound;
        } else {
          var posted := PostToMastodon(song, platformUp);
          if posted.Err? {
            return Crashed(posted.error);
          }
          var ok := WriteState(song["i"]);
          d := Posted(posted.value, if ok then None else Some(NotAString("i")));
        }
      } else if "s" !in song {
        d := Crashed(MissingKey("s"));
      } else if "a" !in song {
        d := Crashed(MissingKey("a"));
      } else {
        d := SkipAlreadyPosted;
      }
    }

    /** One pass of the loop body: scrape the page, then run the cycle.
        Returns the scraped id alongside the decision; `scraped` is the
        record the scrape gave. */
    method Poll(page: Scraper.Page, size: string, platformUp: bool)
      returns (id: Value, d: Decision, ghost scraped: Result<Dict, Fault>)
      modifies this
      ensures Scraper.Scraped(page, size, scraped) && id == IdOf(scraped)
      ensures Outcome(d, stateFile) == Step(old(stateFile), scraped, platformUp)
      ensures timeline == old(timeline) + (if d.Posted? then [d.action] else [])
    {
      var song := Scraper.GetCurrentSong(page, size);
      scraped := song;
      d := Cycle(song, platformUp);
      id := if song.Ok? && "i" in song.value then song.value["i"] else Null;
    }

    /** The `while True` loop over a finite run of page snapshots: one
        `Poll` per snapshot, stopping at the first exception. Returns the
        ids posted, in order, and the fault that ended the run, if any;
        `scrapes` are the records the polls scraped. */
    method Run(pages: seq<Scraper.Page>, size: string, platformUp: seq<bool>)
      returns (postedIds: seq<Value>, fault: Option<Fault>, ghost scrapes: seq<Result<Dict, Fault>>)
      requires |platformUp| == |pages|
      modifies this
      ensures |scrapes| <= |pages|
      ensures AllScraped(pages, size, scrapes)
      ensures RunSoFar(old(stateFile), old(timeline), scrapes, platformUp[..|scrapes|], timeline, postedIds, stateFile, fault)
      ensures |scrapes| == |pages| || fault.Some?
      ensures |timeline| == |old(timeline)| + |postedIds|
      ensures Str(NotFoundId) !in postedIds
      ensures postedIds != [] ==> postedIds[0] != Str(StoredId(old(stateFile)))
      ensures NoCleanRepeat(postedIds)
      ensures postedIds != [] ==> stateFile == Some(Written(postedIds[|postedIds| - 1]))
      ensures postedIds == [] ==> stateFile == old(stateFile) || (old(stateFile).None? && stateFile == Some(StartingUp))
    {
      postedIds, fault, scrapes := [], None, [];
      var n := 0;
      while n < |pages| && fault.None?
        invariant 0 <= n <= |pages| && |scrapes| == n
        invariant AllScraped(pages, size, scrapes)
        invariant RunSoFar(old(stateFile), old(timeline), scrapes, platformUp[..n], timeline, postedIds, stateFile, fault)
      {
        SliceExtend(platformUp, n);
        ghost var prevScrapes, prevTimeline, prevFile := scrapes, timeline, stateFile;
        var id, d, scraped := Poll(pages[n], size, platformUp[n]);
        RunSoFarStep(old(stateFile), old(timeline), prevScrapes, platformUp[..n], prevTimeline, postedIds, prevFile,
                     scraped, platformUp[n], d, stateFile, id);
        AllScrapedExtend(pages, size, scrapes, scraped);
        scrapes := scrapes + [scraped];
        if d.Posted? {
          postedIds := postedIds + [id];
        }
        fault := FaultOf(d);
        n := n + 1;
      }
      RunSoFarSafe(old(stateFile), old(timeline), scrapes, platformUp[..n], timeline, postedIds, stateFile, fault);
    }
  }

  /** Each of `scrapes` is what scraping the page at its position gives. */
  ghost predicate AllScraped(pages: seq<Scraper.Page>, size: string, scrapes: seq<Result<Dict, Fault>>) {
    && |scrapes| <= |pages|
    && forall k :: 0 <= k < |scrapes| ==> Scraper.Scraped(pages[k], size, scrapes[k])
  }

  /** Scraping the next page extends `AllScraped`. */
  lemma AllScrapedExtend(pages: seq<Scraper.Page>, size: string, scrapes: seq<Result<Dict, Fault>>,
                         scraped: Result<Dict, Fault>)
    requires AllScraped(pages, size, scrapes) && |scrapes| < |pages|
    requires Scraper.Scraped(pages[|scrapes|], size, scraped)
    ensures AllScraped(pages, size, scrapes + [scraped])
  {
    var ext := scrapes + [scraped];
    forall k | 0 <= k < |ext|
      ensures Scraper.Scraped(pages[k], size, ext[k])
    {
      if k < |scrapes| {
        assert ext[k] == scrapes[k];
      }
    }
  }

  /** Where a run of polls that began on the state file `file` and the
      account `account` stands after the cycles over `scrapes`: the account
      has gained the statuses those cycles posted, `ids` are the ids posted,
      the file is the one the last cycle left, `fault` is the exception
      that ended the last cycle, if any, and no earlier cycle raised. */
  ghost predicate RunSoFar(file: Option<string>, account: seq<Action>, scrapes: seq<Result<Dict, Fault>>, up: seq<bool>,
                           timeline: seq<Action>, ids: seq<Value>, file': Option<string>, fault: Option<Fault>) {
    && |up| == |scrapes|
    && var os := Steps(file, scrapes, up);
       && timeline == account + Posts(os)
       && ids == PostedIds(os, scrapes)
       && file' == LastFile(file, os)
       && fault == (if os == [] then None else FaultOf(os[|os| - 1].decision))
       && (forall k :: 0 <= k < |os| - 1 ==> !Ends(os[k].decision))
  }

  /** What `RunSoFar` implies for the account, the ids posted and the file. */
  lemma RunSoFarSafe(file: Option<string>, account: seq<Action>, scrapes: seq<Result<Dict, Fault>>, up: seq<bool>,
                     timeline: seq<Action>, ids: seq<Value>, file': Option<string>, fault: Option<Fault>)
    requires RunSoFar(file, account, scrapes, up, timeline, ids, file', fault)
    ensures |timeline| == |account| + |ids|
    ensures Str(NotFoundId) !in ids
    ensures ids != [] ==> ids[0] != Str(StoredId(file))
    ensures NoCleanRepeat(ids)
    ensures ids != [] ==> file' == Some(Written(ids[|ids| - 1]))
    ensures ids == [] ==> file' == file || (file.None? && file' == Some(StartingUp))
  {
    var os := Steps(file, scrapes, up);
    RunSafety(file, scrapes, up);
    PostsMatchIds(os, scrapes);
    assert ids == PostedIds(os, scrapes) && file' == LastFile(file, os);
    assert RunInvariant(ids, file', file, StoredId(file));
  }

  /** One more poll that did not follow a raising one extends `RunSoFar`. */
  lemma RunSoFarStep(file: Option<string>, account: seq<Action>, scrapes: seq<Result<Dict, Fault>>, up: seq<bool>,
                     timeline: seq<Action>, ids: seq<Value>, file': Option<string>,
                     scraped: Result<Dict, Fault>, platformUp: bool, d: Decision, file'': Option<string>, id: Value)
    requires RunSoFar(file, account, scrapes, up, timeline, ids, file', None)
    requires Outcome(d, file'') == Step(file', scraped, platformUp) && id == IdOf(scraped)
    ensures RunSoFar(file, account, scrapes + [scraped], up + [platformUp],
                     timeline + (if d.Posted? then [d.action] else []),
                     ids + (if d.Posted? then [id] else []), file'', FaultOf(d))
  {
    var os := Steps(file, scrapes, up);
    StepsExtend(file, scrapes, up, scraped, platformUp);
    var os' := Steps(file, scrapes + [scraped], up + [platformUp]);
    forall k | 0 <= k < |os'| - 1
      ensures !Ends(os'[k].decision)
    {
      assert os'[k] == os[k];
    }
    AppendAssoc(account, Posts(os), if d.Posted? then [d.action] else []);
  }

  /** A prefix one longer is the prefix with the next element appended. */
  lemma SliceExtend<T>(s: seq<T>, n: nat)
    requires n < |s|
    ensures s[..n + 1] == s[..n] + [s[n]]
  {
  }

  /** Appending to a sequence in two steps appends the two parts. */
  lemma AppendAssoc<T>(a: seq<T>, b: seq<T>, c: seq<T>)
    ensures (a + b) + c == a + (b + c)
  {
  }

  /** The id a scrape gave (`Null` when it gave none). */
  function IdOf(scraped: Result<Dict, Fault>): Value {
    if scraped.Ok? && "i" in scraped.value then scraped.value["i"] else Null
  }

  /** A decision after which the loop ends: an exception escaped the pass. */
  predicate Ends(d: Decision) {
    d.Crashed? || (d.Posted? && d.writeFault.Some?)
  }

  /** The exception that ends the loop after a decision, if any. */
  function FaultOf(d: Decision): (f: Option<Fault>)
    ensures f.Some? <==> Ends(d)
    ensures d.Crashed? ==> f == Some(d.fault)
  {
    match d
    case Crashed(e) => Some(e)
    case Posted(_, w) => w
    case _ => None
  }

  /** The state file after cycles that began on `file`. */
  function LastFile(file: Option<string>, os: seq<Outcome>): Option<string> {
    if os == [] then file else os[|os| - 1].file
  }

  /** Consecutive cycles over the scraped records, each reading the file
      the one before it left. */
  function Steps(file: Option<string>, scrapes: seq<Result<Dict, Fault>>, up: seq<bool>): (os: seq<Outcome>)
    requires |up| == |scrapes|
    ensures |os| == |scrapes|
  {
    if scrapes == [] then []
    else
      var prev := Steps(file, scrapes[..|scrapes| - 1], up[..|up| - 1]);
      prev + [Step(LastFile(file, prev), scrapes[|scrapes| - 1], up[|up| - 1])]
  }

  /** The statuses a run of cycles posts, in order. */
  function Posts(os: seq<Outcome>): seq<Action> {
    if os == [] then []
    else
      var o := os[|os| - 1];
      Posts(os[..|os| - 1]) + (if o.decision.Posted? then [o.decision.action] else [])
  }

  /** The ids a run of cycles posts, in order. */
  function PostedIds(os: seq<Outcome>, scrapes: seq<Result<Dict, Fault>>): seq<Value>
    requires |os| == |scrapes|
  {
    if os == [] then []
    else
      var n := |os| - 1;
      PostedIds(os[..n], scrapes[..n]) + (if os[n].decision.Posted? then [IdOf(scrapes[n])] else [])
  }

  /** One more cycle appends its outcome, its status and its id. */
  lemma StepsExtend(file: Option<string>, scrapes: seq<Result<Dict, Fault>>, up: seq<bool>,
                    scraped: Result<Dict, Fault>, platformUp: bool)
    requires |up| == |scrapes|
    ensures var os := Steps(file, scrapes, up);
            var o := Step(LastFile(file, os), scraped, platformUp);
            var os' := Steps(file, scrapes + [scraped], up + [platformUp]);
              && os' == os + [o]
              && LastFile(file, os') == o.file
              && Posts(os') == Posts(os) + (if o.decision.Posted? then [o.decision.action] else [])
              && PostedIds(os', scrapes + [scraped]) == PostedIds(os, scrapes) + (if o.decision.Posted? then [IdOf(scraped)] else [])
  {
    var os := Steps(file, scrapes, up);
    assert (scrapes + [scraped])[..|scrapes|] == scrapes;
    assert (up + [platformUp])[..|up|] == up;
    var os' := Steps(file, scrapes + [scraped], up + [platformUp]);
    assert os'[..|os|] == os;
  }

  /** A run posts as many statuses as ids. */
  lemma {:induction false} PostsMatchIds(os: seq<Outcome>, scrapes: seq<Result<Dict, Fault>>)
    requires |os| == |scrapes|
    ensures |Posts(os)| == |PostedIds(os, scrapes)|
  {
    if os != [] {
      PostsMatchIds(os[..|os| - 1], scrapes[..|os| - 1]);
    }
  }

  /** What every run of cycles keeps, whatever the records: `"notfound"` is
      never posted, the first post differs from what the file read back as,
      no clean id is posted twice in a row, and the file holds the last
      posted id (or is as it was, or created, when nothing was posted). */
  lemma {:induction false} RunSafety(file: Option<string>, scrapes: seq<Result<Dict, Fault>>, up: seq<bool>)
    requires |up| == |scrapes|
    ensures var os := Steps(file, scrapes, up);
              RunInvariant(PostedIds(os, scrapes), LastFile(file, os), file, StoredId(file))
  {
    if scrapes != [] {
      var n := |scrapes| - 1;
      assert scrapes[..n] + [scrapes[n]] == scrapes;
      assert up[..n] + [up[n]] == up;
      RunSafety(file, scrapes[..n], up[..n]);
      RunSafetyStep(file, scrapes[..n], up[..n], scrapes[n], up[n]);
    }
  }

  /** One more cycle keeps what `RunSafety` states. */
  lemma RunSafetyStep(file: Option<string>, scrapes: seq<Result<Dict, Fault>>, up: seq<bool>,
                      scraped: Result<Dict, Fault>, platformUp: bool)
    requires |up| == |scrapes|
    requires var os := Steps(file, scrapes, up);
               RunInvariant(PostedIds(os, scrapes), LastFile(file, os), file, StoredId(file))
    ensures var os := Steps(file, scrapes + [scraped], up + [platformUp]);
              RunInvariant(PostedIds(os, scrapes + [scraped]), LastFile(file, os), file, StoredId(file))
  {
    var prev := Steps(file, scrapes, up);
    StepsExtend(file, scrapes, up, scraped, platformUp);
    StepKeepsRun(PostedIds(prev, scrapes), LastFile(file, prev), file, scraped, platformUp);
  }

  /** A cycle on the file a run has left keeps `RunInvariant`. */
  lemma StepKeepsRun(ids: seq<Value>, file: Option<string>, start: Option<string>,
                     scraped: Result<Dict, Fault>, platformUp: bool)
    requires RunInvariant(ids, file, start, StoredId(start))
    ensures var o := Step(file, scraped, platformUp);
              RunInvariant(ids + (if o.decision.Posted? then [IdOf(scraped)] else []), o.file, start, StoredId(start))
  {
    StoredDuringRun(ids, file, start);
    StateAdvancesOnlyOnPost(file, scraped, platformUp);
    PostedOnlyNewIds(file, scraped, platformUp);
    var o := Step(file, scraped, platformUp);
    RunInvariantStep(ids, file, start, StoredId(start), StoredId(file), IdOf(scraped), o.decision.Posted?, o.file);
  }

  /** What holds of the ids posted so far by `Run` and of the state file,
      given what the file held when the run began and what it read back
      as then. */
  ghost predicate RunInvariant(ids: seq<Value>, file: Option<string>, start: Option<string>, startId: string) {
    && Str(NotFoundId) !in ids
    && (ids != [] ==> ids[0] != Str(startId))
    && NoCleanRepeat(ids)
    && (ids != [] ==> file == Some(Written(ids[|ids| - 1])))
    && (ids == [] ==> file == start || (start.None? && file == Some(StartingUp)))
  }

  /** What the state file reads back as during a run: what it read back as
      at the start while nothing is posted, and the last posted id when that
      id is clean. */
  lemma StoredDuringRun(ids: seq<Value>, file: Option<string>, start: Option<string>)
    requires RunInvariant(ids, file, start, StoredId(start))
    ensures ids == [] ==> StoredId(file) == StoredId(start)
    ensures ids != [] && ids[|ids| - 1].Str? && Clean(ids[|ids| - 1].s) ==> StoredId(file) == ids[|ids| - 1].s
  {
    if ids == [] {
      if file != start {
        StartingUpIsClean();
      }
    } else if ids[|ids| - 1].Str? {
      FirstLineStripIdentity(ids[|ids| - 1].s);
    }
  }

  /** One `Poll` keeps `RunInvariant`: `stored` is what the file read back
      as before the poll. */
  lemma RunInvariantStep(ids: seq<Value>, file: Option<string>, start: Option<string>, startId: string,
                         stored: string, id: Value, posted: bool, file': Option<string>)
    requires RunInvariant(ids, file, start, startId)
    requires ids == [] ==> stored == startId
    requires ids != [] && ids[|ids| - 1].Str? && Clean(ids[|ids| - 1].s) ==> stored == ids[|ids| - 1].s
    requires posted ==> id != Str(stored) && id != Str(NotFoundId) && file' == Some(Written(id))
    requires !posted && file.Some? ==> file' == file
    requires !posted && file.None? ==> file' == None || file' == Some(StartingUp)
    ensures RunInvariant(ids + (if posted then [id] else []), file', start, startId)
  {
    if !posted {
      assert ids + [] == ids;
    } else {
      var ext := ids + [id];
      assert ext[|ids|] == id;
      assert ext[0] == if ids == [] then id else ids[0];
      if ids != [] {
        NoCleanRepeatExtends(ids, id);
      }
    }
  }

  /** No clean string id is posted twice in a row: each id after the
      first differs from the one before it when that one is clean. */
  ghost predicate NoCleanRepeat(ids: seq<Value>)
    decreases |ids|
  {
    |ids| < 2 ||
      var prev, last := ids[|ids| - 2], ids[|ids| - 1];
      && NoCleanRepeat(ids[..|ids| - 1])
      && (prev.Str? && Clean(prev.s) ==> last != prev)
  }

  /** Appending an id that differs from the last one, when that one is
      clean, keeps `NoCleanRepeat`. */
  lemma NoCleanRepeatExtends(ids: seq<Value>, id: Value)
    requires ids != [] && NoCleanRepeat(ids)
    requires ids[|ids| - 1].Str? && Clean(ids[|ids| - 1].s) ==> id != ids[|ids| - 1]
    ensures NoCleanRepeat(ids + [id])
  {
    assert (ids + [id])[..|ids|] == ids;
  }

  /** "starting up" reads back as itself. */
  lemma StartingUpIsClean()
    ensures StoredId(Some(StartingUp)) == StartingUp
  {
    var s := StartingUp;
    assert '\n' !in s && '\r' !in s;
    assert !IsSpace(s[0]) && !IsSpace(s[|s| - 1]);
    assert Clean(s);
    FirstLineStripIdentity(s);
  }

  /** `write_state(id)` then `read_state()` returns `id` exactly when `id` has
      no line break and no whitespace at either end, whatever the file held. */
  method WriteThenRead(initial: Option<string>, id: string) returns (state: string)
    ensures state == id <==> Clean(id)
  {
    var bot := new Bot(initial);
    var _ := bot.WriteState(Str(id));
    state := bot.ReadState();
    FirstLineStripIdentity(id);
  }

  /** The gate: a cycle posts exactly when the scraped id differs from the
      stored one and from the not-found id, and the post goes through. */
  lemma PostsIffNew(file: Option<string>, song: Dict, platformUp: bool)
    ensures Step(file, Ok(song), platformUp).decision.Posted? <==>
              && "i" in song
              && song["i"] != Str(StoredId(file))
              && song["i"] != Str(NotFoundId)
              && PostAction(song).Ok?
              && platformUp
  {
  }

  /** A cycle is skipped as already posted exactly when the id equals the
      stored one and the record has the title and artist the message
      prints; without them the message raises. */
  lemma AlreadyPostedIff(file: Option<string>, song: Dict, platformUp: bool)
    ensures Step(file, Ok(song), platformUp).decision == SkipAlreadyPosted <==>
              && "i" in song
              && song["i"] == Str(StoredId(file))
              && "s" in song && "a" in song
    ensures "i" in song && song["i"] == Str(StoredId(file)) && "s" !in song ==>
              Step(file, Ok(song), platformUp).decision == Crashed(MissingKey("s"))
  {
  }

  /** The state moves only with a post: a cycle that does not post leaves the
      file as it found it (creating it with "starting up" if it was missing),
      and one that posts a string id leaves exactly that id in the file. */
  lemma StateAdvancesOnlyOnPost(file: Option<string>, scraped: Result<Dict, Fault>, platformUp: bool)
    ensures var o := Step(file, scraped, platformUp);
              && (!o.decision.Posted? && file.Some? ==> o.file == file)
              && (!o.decision.Posted? && file.None? ==> o.file == None || o.file == Some(StartingUp))
              && (o.decision.Posted? ==> scraped.Ok? && "i" in scraped.value
                                         && o.file == Some(Written(scraped.value["i"]))
                                         && (o.decision.writeFault.None? <==> scraped.value["i"].Str?))
  {
    if scraped.Ok? {
      var song := scraped.value;
      var o := Step(file, scraped, platformUp);
      if "i" in song && song["i"] != Str(StoredId(file)) && song["i"] != Str(NotFoundId) && PostOutcome(song, platformUp).Ok? {
        assert o.file == Some(Written(song["i"]));
      } else {
        assert o.file == Some(FileAfterRead(file));
      }
    }
  }

  /** What a posting cycle had to see: a scraped record whose id differs
      from the stored id and from the not-found id. */
  lemma PostedOnlyNewIds(file: Option<string>, scraped: Result<Dict, Fault>, platformUp: bool)
    ensures var o := Step(file, scraped, platformUp);
              o.decision.Posted? ==>
                && scraped.Ok? && "i" in scraped.value
                && scraped.value["i"] != Str(StoredId(file))
                && scraped.value["i"] != Str(NotFoundId)
  {
  }

  /** "notfound" is never written to the state file by a cycle. */
  lemma NotFoundNeverStored(file: Option<string>, scraped: Result<Dict, Fault>, platformUp: bool)
    ensures Step(file, scraped, platformUp).file == Some(NotFoundId) ==> file == Some(NotFoundId)
  {
  }

  /** The not-found record is never posted, and its cycle leaves the state as read. */
  lemma NotFoundNeverPosted(file: Option<string>, platformUp: bool)
    ensures var o := Step(file, Ok(NotFoundItem), platformUp);
              && (o.decision == SkipAlreadyPosted || o.decision == SkipNotFound)
              && o.file == Some(FileAfterRead(file))
  {
  }

  /** No double post: after a cycle that posts id `x`, the next cycle on the
      same record is skipped as already posted exactly when `x` is clean;
      an id with a line break or surrounding whitespace is posted again. */
  lemma {:induction false} RepeatSkippedIffClean(file: Option<string>, song: Dict, platformUp: bool, platformUp2: bool)
    requires Step(file, Ok(song), platformUp).decision.Posted?
    requires "i" in song && song["i"].Str?
    ensures var again := Step(Step(file, Ok(song), platformUp).file, Ok(song), platformUp2);
              && (again.decision == SkipAlreadyPosted <==> Clean(song["i"].s))
              && (!Clean(song["i"].s) && platformUp2 ==> again.decision.Posted?)
  {
    var x := song["i"].s;
    assert Step(file, Ok(song), platformUp).file == Some(x);
    FirstLineStripIdentity(x);
    assert PostAction(song).Ok?;
  }
}
