/**
  The deterministic part of `PlexAICurator`: flattening a Plex movie into the
  record uploaded to the assistant, rendering the watch history into prompt
  text, parsing the assistant's answer into titles, and turning a title list
  into a Plex playlist. The OpenAI assistant itself and the Plex network
  client are outside the model; the Plex server is the `PlexServer` class
  below, whose library search is a fixed lookup.
 */
module Core {
  import opened Wrappers
  import opened Text
  import opened Config

  // ===========================================================================
  // Movie records

  /** `getattr(obj, name, default)` reads an attribute that the object may
      not have at all; an attribute that is there may still hold `None`. */
  datatype Attr<T> = Absent | Present(value: T) {
    function GetOr(default: T): T {
      if Present? then value else default
    }
  }

  /** The attributes of a Plex movie object that the curator reads. Tag lists
      (`genres`, `directors`, `roles`) are given by their `tag` strings. */
  datatype PlexMovie = PlexMovie(
    title: string,
    ratingKey: Option<int>,
    viewCount: Attr<int>,
    genres: Attr<seq<string>>,
    directors: Attr<seq<string>>,
    roles: Attr<seq<string>>,
    year: Attr<Option<int>>,
    summary: Attr<Option<string>>,
    rating: Attr<Option<real>>)

  datatype WatchStatus = Watched | Unwatched

  /** The dictionary `_movie_to_dict` builds; `rating` is passed through untouched. */
  datatype MovieRecord = MovieRecord(
    title: string,
    year: Option<int>,
    director: string,
    genre: string,
    plot: Option<string>,
    actors: string,
    rating: Option<real>,
    status: WatchStatus,
    ratingKey: Option<int>)

  /** Only this many leading cast roles are kept. */
  const ActorLimit: nat := 3

  const NoPlot: string := "No plot available"

  /** A tag list as one field: the tags joined by ", ", or "Unknown" for none. */
  function TagText(tags: seq<string>): (text: string)
    ensures tags == [] ==> text == "Unknown"
    ensures |tags| == 1 ==> text == tags[0]
  {
    if tags == [] then "Unknown" else Join(", ", tags)
  }

  /** The leading cast roles that make it into the record. */
  function TopRoles(m: PlexMovie): (roles: seq<string>)
    ensures |roles| <= ActorLimit && |roles| <= |m.roles.GetOr([])|
    ensures roles == m.roles.GetOr([])[..|roles|]
    ensures |roles| == ActorLimit || roles == m.roles.GetOr([])
  {
    var all := m.roles.GetOr([]);
    if |all| <= ActorLimit then all else all[..ActorLimit]
  }

  /** `_movie_to_dict`. */
  function MovieToRecord(m: PlexMovie): (r: MovieRecord)
    ensures r.title == m.title && r.ratingKey == m.ratingKey
    ensures r.status == Watched <==> m.viewCount.Present? && m.viewCount.value > 0
    ensures m.year.Absent? ==> r.year == None
    ensures m.summary.Absent? ==> r.plot == Some(NoPlot)
    ensures m.rating.Absent? ==> r.rating == Some(0.0)
    ensures m.directors.GetOr([]) == [] ==> r.director == "Unknown"
    ensures m.genres.GetOr([]) == [] ==> r.genre == "Unknown"
    ensures TopRoles(m) == [] ==> r.actors == "Unknown"
    ensures m.year.Present? ==> r.year == m.year.value
    ensures m.summary.Present? ==> r.plot == m.summary.value
    ensures m.rating.Present? ==> r.rating == m.rating.value
    ensures m.directors.GetOr([]) != [] ==> r.director == Join(", ", m.directors.GetOr([]))
    ensures m.genres.GetOr([]) != [] ==> r.genre == Join(", ", m.genres.GetOr([]))
    ensures TopRoles(m) != [] ==> r.actors == Join(", ", TopRoles(m))
  {
    MovieRecord(
      title := m.title,
      year := m.year.GetOr(None),
      director := TagText(m.directors.GetOr([])),
      genre := TagText(m.genres.GetOr([])),
      plot := m.summary.GetOr(Some(NoPlot)),
      actors := TagText(TopRoles(m)),
      rating := m.rating.GetOr(Some(0.0)),
      status := if m.viewCount.GetOr(0) > 0 then Watched else Unwatched,
      ratingKey := m.ratingKey)
  }

  /** A non-empty tag list is written out in full and in order: splitting the
      field at its commas gives back the first tag and then each later tag
      behind the blank of its ", " separator. */
  lemma {:induction false} TagTextListsTags(tags: seq<string>)
    requires tags != []
    requires forall k :: 0 <= k < |tags| ==> ',' !in tags[k]
    ensures Split(TagText(tags), ',') == PrefixLater(" ", tags)
  {
    JoinRegroup(',', " ", tags);
    assert [','] + " " == ", ";
    var spaced := PrefixLater(" ", tags);
    forall k | 0 <= k < |spaced| ensures ',' !in spaced[k] {
      if k > 0 {
        assert spaced[k] == " " + tags[k];
      }
    }
    SplitJoin(spaced, ',');
  }

  /** Roles after the third never reach the record, and nothing but the view
      count decides the watch status. */
  lemma {:induction false} RecordIgnoresLaterRoles(m: PlexMovie, extra: seq<string>, views: Attr<int>)
    requires |m.roles.GetOr([])| >= ActorLimit
    ensures MovieToRecord(m.(roles := Present(TopRoles(m) + extra))) == MovieToRecord(m)
    ensures MovieToRecord(m.(viewCount := views)).status
         == (if views.GetOr(0) > 0 then Watched else Unwatched)
  {
  }

  /** The per-movie mapping of `sync_library`: one record per library movie,
      in library order; its length is the reported `movies_count`. */
  function LibraryDataset(movies: seq<PlexMovie>): (dataset: seq<MovieRecord>)
    ensures |dataset| == |movies|
    ensures forall i :: 0 <= i < |movies| ==>
      && dataset[i].title == movies[i].title
      && dataset[i].ratingKey == movies[i].ratingKey
      && (dataset[i].status == Watched <==> movies[i].viewCount.GetOr(0) > 0)
    ensures forall i :: 0 <= i < |movies| ==> dataset[i] == MovieToRecord(movies[i])
  {
    seq(|movies|, i requires 0 <= i < |movies| => MovieToRecord(movies[i]))
  }

  // ===========================================================================
  // History context

  /** `f"{year}"`: a Python None prints as "None". */
  function YearText(year: Option<int>): (r: string)
    ensures '\n' !in r
  {
    match year
    case None => "None"
    case Some(y) => IntToDecimal(y)
  }

  /** The prompt line describing one watched movie. */
  function HistoryLine(r: MovieRecord): (line: string)
    ensures |line| > 2 && line[..2] == "- "
  {
    "- " + r.title + " (" + YearText(r.year) + ") - Director: " + r.director
      + ", G\U{e9}nero: " + r.genre
  }

  function HistoryLines(history: seq<PlexMovie>): (lines: seq<string>)
    ensures |lines| == |history|
  {
    seq(|history|, i requires 0 <= i < |history| => HistoryLine(MovieToRecord(history[i])))
  }

  /** `_build_history_context`: one line per movie, joined by newlines. */
  method BuildHistoryContext(history: seq<PlexMovie>) returns (context: string)
    ensures context == Join("\n", HistoryLines(history))
    ensures history == [] <==> context == ""
  {
    var contextLines: seq<string> := [];
    for i := 0 to |history|
      invariant |contextLines| == i
      invariant forall k :: 0 <= k < i ==>
        contextLines[k] == HistoryLine(MovieToRecord(history[k]))
    {
      var record := MovieToRecord(history[i]);
      contextLines := contextLines + [HistoryLine(record)];
    }
    assert contextLines == HistoryLines(history);
    context := Join("\n", contextLines);
    if history != [] {
      assert |contextLines[0]| > 2;
      JoinNonEmpty(contextLines);
    }
  }

  lemma {:induction false} JoinNonEmpty(lines: seq<string>)
    requires lines != [] && lines[0] != ""
    ensures Join("\n", lines) != ""
  {
  }

  /** A movie whose title and tags hold no line break. */
  predicate OnOneLine(m: PlexMovie) {
    && '\n' !in m.title
    && (forall k :: 0 <= k < |m.directors.GetOr([])| ==> '\n' !in m.directors.GetOr([])[k])
    && (forall k :: 0 <= k < |m.genres.GetOr([])| ==> '\n' !in m.genres.GetOr([])[k])
  }

  lemma {:induction false} TagTextOnOneLine(tags: seq<string>)
    requires forall k :: 0 <= k < |tags| ==> '\n' !in tags[k]
    ensures '\n' !in TagText(tags)
  {
    if tags != [] {
      JoinExcludes(", ", tags, '\n');
    }
  }

  lemma {:induction false} HistoryLineOnOneLine(m: PlexMovie)
    requires OnOneLine(m)
    ensures '\n' !in HistoryLine(MovieToRecord(m))
  {
    var r := MovieToRecord(m);
    TagTextOnOneLine(m.directors.GetOr([]));
    TagTextOnOneLine(m.genres.GetOr([]));
    RecordLineOnOneLine(r);
  }

  lemma {:induction false} RecordLineOnOneLine(r: MovieRecord)
    requires '\n' !in r.title && '\n' !in r.director && '\n' !in r.genre
    ensures '\n' !in HistoryLine(r)
  {
    var front := "- " + r.title + " (" + YearText(r.year) + ") - Director: ";
    assert '\n' !in front;
    var back := r.director + ", G\U{e9}nero: " + r.genre;
    assert '\n' !in back;
    assert HistoryLine(r) == front + back;
  }

  /** The context holds exactly one line per history movie, in history order,
      each starting with "- ", and no trailing newline. */
  lemma {:induction false} HistoryContextLines(history: seq<PlexMovie>)
    requires history != []
    requires forall k :: 0 <= k < |history| ==> OnOneLine(history[k])
    ensures var lines := Split(Join("\n", HistoryLines(history)), '\n');
      && |lines| == |history|
      && (forall k :: 0 <= k < |history| ==>
            lines[k] == HistoryLine(MovieToRecord(history[k])) && lines[k][..2] == "- ")
  {
    var lines := HistoryLines(history);
    forall k | 0 <= k < |lines| ensures '\n' !in lines[k] {
      HistoryLineOnOneLine(history[k]);
    }
    SplitJoin(lines, '\n');
  }

  // ===========================================================================
  // Parsing the assistant's answer

  /** The characters of the class `[\d\.\-\*\•]`. */
  predicate IsBulletChar(c: char) {
    IsDigit(c) || c == '.' || c == '-' || c == '*' || c == '\U{2022}'
  }

  /** One answer line cleaned as `re.sub(r'^[\d\.\-\*\•]\s*', '', line.strip())`
      does: the trimmed line, less at most ONE leading bullet or numbering
      character together with the whitespace after it. */
  function CleanLine(line: string): (cleaned: string)
    ensures |cleaned| <= |Strip(line)| <= |line|
  {
    var t := Strip(line);
    if t != [] && IsBulletChar(t[0]) then LStrip(t[1..]) else t
  }

  /** What the cleaning cuts from the trimmed line is one bullet or numbering
      character and the whitespace behind it, or nothing when the line does
      not start with one. */
  lemma {:induction false} CleanLineCuts(line: string)
    ensures CleanLine(line) == Strip(line)[|Strip(line)| - |CleanLine(line)|..]
    ensures |CleanLine(line)| < |Strip(line)| ==>
      IsBulletChar(Strip(line)[0]) && CleanLine(line) == LStrip(Strip(line)[1..])
    ensures Strip(line) == [] || !IsBulletChar(Strip(line)[0]) ==> CleanLine(line) == Strip(line)
    ensures Strip(line) != [] && IsBulletChar(Strip(line)[0]) ==>
      && |CleanLine(line)| < |Strip(line)|
      && AllSpace(Strip(line)[1..|Strip(line)| - |CleanLine(line)|])
  {
    var t := Strip(line);
    if t != [] && IsBulletChar(t[0]) {
      var rest := t[1..];
      var r := LStrip(rest);
      LStripCuts(rest);
      assert r == t[|t| - |r|..];
      AllSpaceSlice(rest, 0, |rest| - |r|);
      assert rest[0..|rest| - |r|] == t[1..|t| - |r|];
    }
  }

  /** What is left after cleaning neither starts nor ends with whitespace. */
  lemma {:induction false} CleanLineTrimmed(line: string)
    ensures var r := CleanLine(line); r == [] || (!IsSpace(r[0]) && !IsSpace(r[|r| - 1]))
  {
    var t := Strip(line);
    StripEnds(line);
    if t != [] && IsBulletChar(t[0]) {
      var r := LStrip(t[1..]);
      LStripCuts(t[1..]);
      assert r == t[|t| - |r|..];
      if r != [] {
        assert r[|r| - 1] == t[|t| - 1];
      }
    }
  }

  /** A cleaned line survives when it is non-empty and longer than two characters. */
  predicate KeepTitle(cleaned: string) {
    cleaned != [] && |cleaned| > 2
  }

  function CleanedLines(lines: seq<string>): (cleaned: seq<string>)
    ensures |cleaned| == |lines|
  {
    seq(|lines|, i requires 0 <= i < |lines| => CleanLine(lines[i]))
  }

  /** The titles the loop of `_parse_recommendations` collects from the
      cleaned lines. */
  function KeptTitles(cleaned: seq<string>): (titles: seq<string>)
    ensures |titles| <= |cleaned|
  {
    if cleaned == [] then []
    else
      var last := cleaned[|cleaned| - 1];
      KeptTitles(cleaned[..|cleaned| - 1]) + (if KeepTitle(last) then [last] else [])
  }

  /** The positions of the cleaned lines that are kept, in increasing order. */
  function KeptPositions(cleaned: seq<string>): seq<int> {
    if cleaned == [] then []
    else
      KeptPositions(cleaned[..|cleaned| - 1])
        + (if KeepTitle(cleaned[|cleaned| - 1]) then [|cleaned| - 1] else [])
  }

  /** `xs[:n]` for a Python list, negative `n` counting from the end. */
  function SliceTo<T>(xs: seq<T>, n: int): (r: seq<T>)
    ensures |r| <= |xs| && r == xs[..|r|]
    ensures n >= 0 ==> |r| == if n <= |xs| then n else |xs|
    ensures n < 0 ==> |r| == if |xs| + n >= 0 then |xs| + n else 0
  {
    if n >= 0 then (if n <= |xs| then xs[..n] else xs)
    else (if |xs| + n >= 0 then xs[..|xs| + n] else [])
  }

  /** The lines of the answer: the whole text trimmed, then split at newlines. */
  function AnswerLines(responseText: string): (lines: seq<string>)
    ensures |lines| >= 1
  {
    Split(Strip(responseText), '\n')
  }

  /** What `_parse_recommendations` returns. */
  function Recommendations(responseText: string, recommendationCount: int): (titles: seq<string>)
    ensures recommendationCount >= 0 ==> |titles| <= recommendationCount
  {
    SliceTo(KeptTitles(CleanedLines(AnswerLines(responseText))), recommendationCount)
  }

  /** `xs` is `ys` with some elements left out, the rest in order; `idx` says
      where each element of `xs` stands in `ys`. */
  ghost predicate SubsequenceAt<T>(xs: seq<T>, ys: seq<T>, idx: seq<int>) {
    && |idx| == |xs|
    && (forall k :: 0 <= k < |idx| ==> 0 <= idx[k] < |ys| && xs[k] == ys[idx[k]])
    && (forall k, l :: 0 <= k < l < |idx| ==> idx[k] < idx[l])
  }

  ghost predicate IsSubsequence<T>(xs: seq<T>, ys: seq<T>) {
    exists idx :: SubsequenceAt(xs, ys, idx)
  }

  /** The collected titles are exactly the cleaned lines that are kept, in line
      order: title k is the cleaned line at the k-th kept position, and a
      position is kept exactly when its cleaned line is longer than two. */
  lemma {:induction false} KeptTitlesExactly(cleaned: seq<string>)
    ensures var titles, pos := KeptTitles(cleaned), KeptPositions(cleaned);
      && SubsequenceAt(titles, cleaned, pos)
      && (forall j :: 0 <= j < |cleaned| ==> (KeepTitle(cleaned[j]) <==> j in pos))
  {
    if cleaned != [] {
      var n := |cleaned| - 1;
      var init, last := cleaned[..n], cleaned[n];
      assert cleaned == init + [last];
      KeptTitlesExactly(init);
      var titles0, pos0 := KeptTitles(init), KeptPositions(init);
      SubsequenceExtend(titles0, init, pos0, last, KeepTitle(last));
      forall j | 0 <= j < n ensures KeepTitle(cleaned[j]) <==> j in KeptPositions(cleaned) {
        assert cleaned[j] == init[j];
      }
    }
  }

  /** Appending one element to the longer sequence keeps a subsequence one,
      and appending it to both extends the witness by its position. */
  lemma {:induction false} SubsequenceExtend<T>(xs: seq<T>, ys: seq<T>, idx: seq<int>, y: T, take: bool)
    requires SubsequenceAt(xs, ys, idx)
    ensures take ==> SubsequenceAt(xs + [y], ys + [y], idx + [|ys|])
    ensures !take ==> SubsequenceAt(xs, ys + [y], idx)
  {
  }

  /** Every title returned is longer than two characters, it is a cleaned
      answer line, and the titles keep the order of the answer. */
  lemma {:induction false} RecommendationsProperties(responseText: string, recommendationCount: int)
    ensures var titles := Recommendations(responseText, recommendationCount);
      && (recommendationCount >= 0 ==> |titles| <= recommendationCount)
      && (forall k :: 0 <= k < |titles| ==> |titles[k]| > 2)
      && IsSubsequence(titles, CleanedLines(AnswerLines(responseText)))
  {
    var cleaned := CleanedLines(AnswerLines(responseText));
    KeptTitlesExactly(cleaned);
    var all, pos := KeptTitles(cleaned), KeptPositions(cleaned);
    var titles := Recommendations(responseText, recommendationCount);
    assert SubsequenceAt(titles, cleaned, pos[..|titles|]);
    forall k | 0 <= k < |titles| ensures |titles[k]| > 2 {
      assert titles[k] == all[k] == cleaned[pos[k]];
      assert pos[k] in pos;
    }
  }

  /** With a non-negative count, as many titles are returned as asked for, or
      all that were found when there are fewer. */
  lemma {:induction false} RecommendationsCount(responseText: string, recommendationCount: nat)
    ensures var found := KeptTitles(CleanedLines(AnswerLines(responseText)));
      |Recommendations(responseText, recommendationCount)|
        == if recommendationCount <= |found| then recommendationCount else |found|
  {
  }

  /** `_parse_recommendations`. */
  method ParseRecommendations(responseText: string, recommendationCount: int)
    returns (titles: seq<string>)
    ensures titles == Recommendations(responseText, recommendationCount)
    ensures recommendationCount >= 0 ==> |titles| <= recommendationCount
    ensures forall k :: 0 <= k < |titles| ==> |titles[k]| > 2
    ensures IsSubsequence(titles, CleanedLines(AnswerLines(responseText)))
  {
    var lines := Split(Strip(responseText), '\n');
    ghost var cleanedLines := CleanedLines(lines);
    var found: seq<string> := [];
    for i := 0 to |lines|
      invariant found == KeptTitles(cleanedLines[..i])
    {
      var cleaned := CleanLine(lines[i]);
      assert cleaned == cleanedLines[i];
      if cleaned != [] && |cleaned| > 2 {
        found := found + [cleaned];
      }
      assert cleanedLines[..i + 1][..i] == cleanedLines[..i];
    }
    assert cleanedLines[..|lines|] == cleanedLines;
    titles := SliceTo(found, recommendationCount);
    RecommendationsProperties(responseText, recommendationCount);
  }

  /** No bullet or numbering character is whitespace. */
  lemma {:induction false} BulletIsNotSpace(c: char)
    requires IsBulletChar(c)
    ensures !IsSpace(c)
  {
  }

  /** The cleaning removes ONE numbering character only: a line "12. Dune"
      becomes "2. Dune" and "1. Dune" becomes ". Dune". */
  lemma {:induction false} CleanNumberedLine(digits: string, title: string)
    requires |digits| >= 1 && forall k :: 0 <= k < |digits| ==> IsDigit(digits[k])
    requires title != [] && !IsSpace(title[|title| - 1])
    ensures CleanLine(digits + ". " + title) == digits[1..] + ". " + title
  {
  }

  /** A "-", "*" or "\U{2022}" bullet goes together with the blanks after it. */
  lemma {:induction false} CleanBulletLine(bullet: char, title: string)
    requires bullet == '-' || bullet == '*' || bullet == '\U{2022}'
    requires title != [] && !IsSpace(title[0]) && !IsSpace(title[|title| - 1])
    ensures CleanLine([bullet] + " " + title) == title
  {
    var s := [bullet] + " " + title;
    BulletIsNotSpace(bullet);
    assert s[|s| - 1] == title[|title| - 1];
    StripOfTrimmed(s);
    var rest := s[1..];
    assert rest == " " + title && rest[0] == ' ';
    assert rest[1..] == title;
    assert LStrip(rest) == LStrip(title);
    assert LStrip(title) == title;
  }

  // ===========================================================================
  // Playlist creation

  /** What one `library.search(title=..., limit=1)` call yields: its result
      list, or an exception. */
  datatype SearchOutcome = Results(items: seq<PlexMovie>) | SearchFailed

  predicate IsHit(o: SearchOutcome) {
    o.Results? && o.items != []
  }

  /** The Plex server as `create_playlist` uses it: which library sections
      exist, what a title search in a section returns, whether creating a
      playlist succeeds, and the playlists by name. `searches` records every
      title looked up. */
  class PlexServer {
    const sections: set<string>
    const search: (string, string) -> SearchOutcome
    const createWorks: bool
    var playlists: map<string, seq<PlexMovie>>
    ghost var searches: seq<string>

    constructor (sections: set<string>, search: (string, string) -> SearchOutcome,
                 createWorks: bool, playlists: map<string, seq<PlexMovie>>)
      ensures this.sections == sections && this.search == search
      ensures this.createWorks == createWorks && this.playlists == playlists
      ensures searches == []
    {
      this.sections := sections;
      this.search := search;
      this.createWorks := createWorks;
      this.playlists := playlists;
      searches := [];
    }

    /** `library.search(title=title, limit=1)` in section `section`. */
    method Search(section: string, title: string) returns (o: SearchOutcome)
      modifies this`searches
      ensures o == search(section, title)
      ensures searches == old(searches) + [title]
    {
      o := search(section, title);
      searches := searches + [title];
    }

    /** `plex.playlist(name).delete()`, a missing playlist being ignored. */
    method DeletePlaylist(name: string)
      modifies this`playlists
      ensures playlists == old(playlists) - {name}
    {
      playlists := playlists - {name};
    }

    /** `plex.createPlaylist(name, items=items)`; false when it raises. */
    method CreatePlaylist(name: string, items: seq<PlexMovie>) returns (created: bool)
      modifies this`playlists
      ensures created == createWorks
      ensures playlists == if created then old(playlists)[name := items] else old(playlists)
    {
      created := createWorks;
      if created {
        playlists := playlists[name := items];
      }
    }
  }

  /** Errors `create_playlist` lets escape to its caller. */
  datatype PlexError = LibraryNotFound | CreateFailed

  /** The dictionaries `create_playlist` returns, and the exception it raises. */
  datatype PlaylistOutcome =
    | FeatureDisabled
    | NothingFound(notFound: seq<string>)
    | PlaylistCreated(playlistName: string, moviesAdded: nat, moviesNotFound: seq<string>)
    | Raised(error: PlexError)
  {
    /** The `success` entry of the returned dictionary. */
    predicate Success()
      requires !Raised?
      ensures Success() <==> Message().None?
    {
      PlaylistCreated?
    }

    /** The `message` entry of the returned dictionary, when it has one. */
    function Message(): (message: Option<string>)
      requires !Raised?
      ensures message.None? <==> PlaylistCreated?
      ensures FeatureDisabled? ==> message == Some("Feature disabled")
    {
      match this
      case FeatureDisabled => Some("Feature disabled")
      case NothingFound(_) => Some("No se encontraron pel\U{ed}culas en la biblioteca")
      case PlaylistCreated(_, _, _) => None
    }
  }

  /** The movies found and the titles not found, as the search loop of
      `create_playlist` collects them. */
  function Partition(search: (string, string) -> SearchOutcome, section: string,
                     titles: seq<string>): (split: (seq<PlexMovie>, seq<string>))
    ensures |split.0| + |split.1| == |titles|
  {
    if titles == [] then ([], [])
    else
      var (found, notFound) := Partition(search, section, titles[..|titles| - 1]);
      var title := titles[|titles| - 1];
      var o := search(section, title);
      if IsHit(o) then (found + [o.items[0]], notFound) else (found, notFound + [title])
  }

  /** Every requested title ends up in exactly one of the two lists: the
      found list gets the first search hit of each title that has one, the
      not-found list every title whose search came back empty or raised. */
  lemma {:induction false} PartitionSplitsTitles(search: (string, string) -> SearchOutcome,
                                                 section: string, titles: seq<string>)
    ensures var (found, notFound) := Partition(search, section, titles);
      && |found| + |notFound| == |titles|
      && (forall t :: t in notFound <==> t in titles && !IsHit(search(section, t)))
      && (forall t :: t in titles && IsHit(search(section, t)) ==>
            search(section, t).items[0] in found)
      && (forall m :: m in found ==> exists t :: t in titles && IsHit(search(section, t))
                                           && search(section, t).items[0] == m)
  {
    if titles != [] {
      var init := titles[..|titles| - 1];
      PartitionSplitsTitles(search, section, init);
      assert titles == init + [titles[|titles| - 1]];
    }
  }

  /** Nothing is found exactly when no requested title has a search hit. */
  lemma {:induction false} PartitionNothingFound(search: (string, string) -> SearchOutcome,
                                                 section: string, titles: seq<string>)
    ensures Partition(search, section, titles).0 == []
            <==> forall t :: t in titles ==> !IsHit(search(section, t))
  {
    PartitionSplitsTitles(search, section, titles);
    var (found, notFound) := Partition(search, section, titles);
    if found != [] {
      assert found[0] in found;
    }
  }

  /** `create_playlist`. */
  method CreatePlaylist(server: PlexServer, settings: Settings, playlistName: string,
                        movieTitles: seq<string>) returns (outcome: PlaylistOutcome)
    modifies server
    ensures !settings.enablePlexPlaylist ==> outcome == FeatureDisabled && unchanged(server)
    ensures settings.enablePlexPlaylist && settings.plexLibraryName !in server.sections ==>
      outcome == Raised(LibraryNotFound) && unchanged(server)
    ensures settings.enablePlexPlaylist && settings.plexLibraryName in server.sections ==>
      var (found, notFound) := Partition(server.search, settings.plexLibraryName, movieTitles);
      && server.searches == old(server.searches) + movieTitles
      && (found == [] ==>
            outcome == NothingFound(notFound) && server.playlists == old(server.playlists))
      && (found != [] && server.createWorks ==>
            && outcome == PlaylistCreated(playlistName, |found|, notFound)
            && server.playlists == old(server.playlists)[playlistName := found])
      && (found != [] && !server.createWorks ==>
            outcome == Raised(CreateFailed)
            && server.playlists == old(server.playlists) - {playlistName})
  {
    if !settings.enablePlexPlaylist {
      return FeatureDisabled;
    }
    var section := settings.plexLibraryName;
    if section !in server.sections {
      return Raised(LibraryNotFound);
    }
    var moviesFound: seq<PlexMovie> := [];
    var moviesNotFound: seq<string> := [];
    for i := 0 to |movieTitles|
      invariant (moviesFound, moviesNotFound) == Partition(server.search, section, movieTitles[..i])
      invariant server.searches == old(server.searches) + movieTitles[..i]
      invariant server.playlists == old(server.playlists)
    {
      assert movieTitles[..i + 1][..i] == movieTitles[..i];
      var results := server.Search(section, movieTitles[i]);
      match results {
        case Results(items) =>
          if items != [] {
            moviesFound := moviesFound + [items[0]];
          } else {
            moviesNotFound := moviesNotFound + [movieTitles[i]];
          }
        case SearchFailed =>
          moviesNotFound := moviesNotFound + [movieTitles[i]];
      }
    }
    assert movieTitles[..|movieTitles|] == movieTitles;
    if moviesFound == [] {
      return NothingFound(moviesNotFound);
    }
    server.DeletePlaylist(playlistName);
    var created := server.CreatePlaylist(playlistName, moviesFound);
    if !created {
      return Raised(CreateFailed);
    }
    outcome := PlaylistCreated(playlistName, |moviesFound|, moviesNotFound);
  }
}
