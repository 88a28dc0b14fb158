/** plugins/music.js: which handler the music command picks, the lyrics
    query split and truncation, and the search listing.  The web services
    are not modelled: their answers (the search results, the lyrics) are
    parameters, and translated labels are parameters too. */
module Music {

  import opened Wrappers
  import opened JsString
  import opened JsNumber
  import opened Messages

  /** The handler the command word selects. */
  datatype MusicRoute = MusicUsage | SpotifySearch(query: string) | LyricsLookup(query: string) | MusicSearch(query: string)

  /** `execute(message, query)`: usage without a query, then by the
      lower-cased command word; every other alias searches. */
  function Route(body: string, prefix: string, query: string): (r: MusicRoute)
    ensures r == MusicUsage <==> query == ""
    ensures query != "" && ToLower(CommandWord(body, prefix)) == "spotify" ==> r == SpotifySearch(query)
    ensures query != "" && ToLower(CommandWord(body, prefix)) == "lyrics" ==> r == LyricsLookup(query)
    ensures r.MusicSearch? <==> query != "" && ToLower(CommandWord(body, prefix)) !in ["spotify", "lyrics"]
  {
    var command := ToLower(CommandWord(body, prefix));
    if query == "" then MusicUsage
    else if command == "spotify" then SpotifySearch(query)
    else if command == "lyrics" then LyricsLookup(query)
    else MusicSearch(query)
  }

  /** The artist and song of a lyrics query. */
  datatype LyricsQuery = LyricsQuery(artist: string, song: string)

  /** `const [artist, ...songParts] = query.split("-")`, the song re-joined
      with "-" and trimmed; None is the format hint (an empty artist or an
      empty song).  The artist is checked before it is trimmed. */
  function ParseLyrics(query: string): (r: Option<LyricsQuery>)
    ensures r.Some? <==> Before(query, '-') != "" && Trim(After(query, '-')) != ""
    ensures r.Some? ==> r.value == LyricsQuery(Trim(Before(query, '-')), Trim(After(query, '-')))
  {
    var parts := Split(query, '-');
    var artist := parts[0];
    SplitTail(query, '-');
    var song := Trim(Join(parts[1..], "-"));
    if artist == "" || song == "" then None else Some(LyricsQuery(Trim(artist), song))
  }

  /** A query without "-" has no song. */
  lemma NoDashNoSong(query: string)
    requires '-' !in query
    ensures ParseLyrics(query).None?
  {
    assert After(query, '-') == "";
    assert Trim("") == "";
  }

  /** The first "-" separates artist and song; later ones stay in the song. */
  lemma SongKeepsLaterDashes(artist: string, song: string)
    requires artist != "" && '-' !in artist
    requires song != "" && Trim(song) == song
    ensures ParseLyrics(artist + "-" + song) == Some(LyricsQuery(Trim(artist), song))
  {
    var q := artist + "-" + song;
    assert q[..|artist|] == artist;
    FirstOccurrence(q, '-', |artist|);
    assert q[|artist| + 1..] == song;
  }

  const LyricsLimit := 2000

  /** The lyrics as sent: at most 2000 characters of them, with a note when
      they were cut. */
  function Truncate(lyrics: string, truncatedNote: string): (r: string)
    ensures |lyrics| <= LyricsLimit ==> r == lyrics
    ensures |lyrics| > LyricsLimit ==> StartsWith(r, lyrics[..LyricsLimit]) && |r| == LyricsLimit + |truncatedNote| + 8
    ensures |lyrics| > LyricsLimit ==> r[LyricsLimit..] == "\n\n... _" + truncatedNote + "_"
  {
    if |lyrics| > LyricsLimit then
      var r := lyrics[..LyricsLimit] + "\n\n... _" + truncatedNote + "_";
      assert r[..LyricsLimit] == lyrics[..LyricsLimit];
      assert r[LyricsLimit..] == "\n\n... _" + truncatedNote + "_";
      r
    else lyrics
  }

  /** One result of the search service. */
  datatype Track = Track(trackName: string, artistName: string, collectionName: string, previewUrl: Option<string>)

  /** The preview line: only for a track with a non-empty preview URL
      (an empty one is falsy). */
  function PreviewLine(t: Track): (r: string)
    ensures r == "" <==> t.previewUrl.None? || t.previewUrl.value == ""
    ensures r != "" ==> r == "   🎧 " + t.previewUrl.value + "\n"
  {
    if t.previewUrl.Some? && t.previewUrl.value != "" then "   🎧 " + t.previewUrl.value + "\n" else ""
  }

  /** The lines of entry `n`. */
  function TrackEntry(n: nat, t: Track): string {
    ShowNat(n) + ". *" + t.trackName + "*\n" + "   🎤 " + t.artistName + "\n" + "   💿 " + t.collectionName + "\n"
    + PreviewLine(t) + "\n"
  }

  /** The entries of `tracks`, numbered from 1 in their order. */
  function TrackEntries(tracks: seq<Track>): string {
    if |tracks| == 0 then "" else TrackEntries(tracks[..|tracks| - 1]) + TrackEntry(|tracks|, tracks[|tracks| - 1])
  }

  function SearchHeader(title: string, query: string): string {
    "🎵 *" + title + "*\n\n" + "🔍 _" + query + "_\n\n"
  }

  const MaxShown := 5

  /** `results.slice(0, 5)`. */
  function Shown(results: seq<Track>): (r: seq<Track>)
    ensures |r| <= MaxShown && |r| <= |results| && r == results[..|r|]
    ensures |results| <= MaxShown ==> r == results
  {
    if |results| <= MaxShown then results else results[..MaxShown]
  }

  /** The reply of the search handler. */
  datatype SearchReply = NoResults | Results(text: string)

  /** `handleMusicSearch(message, query)` given the service's results. */
  method SearchListing(query: string, results: seq<Track>, title: string) returns (reply: SearchReply)
    ensures reply == NoResults <==> results == []
    ensures reply.Results? ==> reply.text == SearchHeader(title, query) + TrackEntries(Shown(results))
  {
    if |results| == 0 {
      return NoResults;
    }
    var shown := Shown(results);
    var head := SearchHeader(title, query);
    var text := head;
    var i := 0;
    while i < |shown|
      invariant 0 <= i <= |shown|
      invariant text == head + TrackEntries(shown[..i])
    {
      text := AppendEntry(text, head, shown, i);
      i := i + 1;
    }
    assert shown[..|shown|] == shown;
    return Results(text);
  }

  /** The entry of the `i`th track appended to the listing of those before. */
  method AppendEntry(text: string, head: string, tracks: seq<Track>, i: nat) returns (r: string)
    requires i < |tracks| && text == head + TrackEntries(tracks[..i])
    ensures r == head + TrackEntries(tracks[..i + 1])
  {
    var piece := TrackEntry(i + 1, tracks[i]);
    EntriesSnoc(tracks, i);
    AppendAssoc(head, TrackEntries(tracks[..i]), piece);
    r := text + piece;
  }

  /** The entries of one more row are those before and its own. */
  lemma EntriesSnoc(tracks: seq<Track>, i: nat)
    requires i < |tracks|
    ensures TrackEntries(tracks[..i + 1]) == TrackEntries(tracks[..i]) + TrackEntry(i + 1, tracks[i])
  {
    assert tracks[..i + 1][..i] == tracks[..i];
  }

  /** Results past the fifth never show: the listing is the same as for
      the first five alone. */
  lemma OnlyFirstFive(results: seq<Track>)
    requires |results| > MaxShown
    ensures Shown(results) == Shown(results[..MaxShown])
    ensures |Shown(results)| == MaxShown
  {
  }

  /** The listing grows by one entry per shown track, each ending in a
      blank line. */
  lemma {:induction false} EntriesEndInBlankLine(tracks: seq<Track>)
    requires |tracks| > 0
    ensures EndsWith(TrackEntries(tracks), "\n")
  {
    var e := TrackEntry(|tracks|, tracks[|tracks| - 1]);
    var r := TrackEntries(tracks);
    assert r == TrackEntries(tracks[..|tracks| - 1]) + e;
    assert e[|e| - 1] == '\n';
    assert r[|r| - 1..] == "\n";
  }
}
