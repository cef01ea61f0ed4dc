/**
 * An audio playlist: a doubly linked list of songs from head to tail with a
 * currently playing song. Songs are added at the tail and removed by title;
 * play next and play previous walk the list and wrap round at its ends.
 * The list is a sequence whose index 0 is the head; the current song is an
 * index into it.
 */
module AudioPlaylist {
  import opened Common

  datatype Song = Song(title: string, artist: string, duration: int)

  /** The playlist as an observer sees it. */
  datatype Playlist = Playlist(songs: seq<Song>, current: Option<nat>, totalSongs: int)

  /**
   * The count is the list length, and a song is playing exactly when the
   * playlist is non-empty.
   */
  ghost predicate Inv(p: Playlist) {
    && p.totalSongs == |p.songs|
    && (p.current.None? <==> p.songs == [])
    && (p.current.Some? ==> p.current.value < |p.songs|)
  }

  /** Index of the first song with the title, or |ss| when there is none. */
  function IndexOfTitle(ss: seq<Song>, title: string): (k: nat)
    ensures k <= |ss|
    ensures forall i :: 0 <= i < k ==> ss[i].title != title
    ensures k < |ss| ==> ss[k].title == title
  {
    if ss == [] then 0 else if ss[0].title == title then 0 else 1 + IndexOfTitle(ss[1..], title)
  }

  // ---------------------------------------------------------------------
  // The operations on values

  /** The song goes to the tail; the first song added to an empty playlist starts playing. */
  function Added(p: Playlist, s: Song): Playlist {
    Playlist(p.songs + [s], if p.songs == [] then Some(0) else p.current, p.totalSongs + 1)
  }

  /**
   * The first song with the title is unlinked. If it was playing, its
   * successor plays, or the head when it was the last song (nothing when the
   * playlist is now empty); any other playing song keeps playing. An unknown
   * title changes nothing.
   */
  function Removed(p: Playlist, title: string): Playlist
    requires Inv(p)
  {
    var k := IndexOfTitle(p.songs, title);
    if k == |p.songs| then p
    else
      var rest := RemoveAt(p.songs, k);
      var c := p.current.value;
      var current :=
        if c == k then (if k + 1 < |p.songs| then Some(k) else if rest == [] then None else Some(0))
        else if c > k then Some(c - 1)
        else Some(c);
      Playlist(rest, current, p.totalSongs - 1)
  }

  /** The next song plays, or the head after the tail; nothing happens on an empty playlist. */
  function Nexted(p: Playlist): Playlist
    requires Inv(p)
  {
    match p.current
    case None => p
    case Some(c) => p.(current := Some(if c + 1 < |p.songs| then c + 1 else 0))
  }

  /** The previous song plays, or the tail before the head; nothing happens on an empty playlist. */
  function Preceded(p: Playlist): Playlist
    requires Inv(p)
  {
    match p.current
    case None => p
    case Some(c) => p.(current := Some(if c > 0 then c - 1 else |p.songs| - 1))
  }

  /** Play next, n times over. */
  function NextedTimes(p: Playlist, n: nat): (r: Playlist)
    requires Inv(p)
    ensures Inv(r) && r.songs == p.songs
  {
    if n == 0 then p else Nexted(NextedTimes(p, n - 1))
  }

  // ---------------------------------------------------------------------
  // Properties

  /** Adding keeps the invariant, and the song that was playing keeps playing. */
  lemma AddedKeepsPlaying(p: Playlist, s: Song)
    requires Inv(p)
    ensures Inv(Added(p, s))
    ensures Added(p, s).songs[Added(p, s).current.value] == if p.songs == [] then s else p.songs[p.current.value]
  {
  }

  /** Removing keeps the invariant: the count follows the list and the playing index stays in it. */
  lemma RemovedInv(p: Playlist, title: string)
    requires Inv(p)
    ensures Inv(Removed(p, title))
  {
  }

  /** Removing takes out exactly one song, or none for an unknown title. */
  lemma RemovedKeepsInv(p: Playlist, title: string)
    requires Inv(p)
    ensures Inv(Removed(p, title))
    ensures IndexOfTitle(p.songs, title) == |p.songs| ==> Removed(p, title) == p
    ensures IndexOfTitle(p.songs, title) < |p.songs| ==>
      multiset(Removed(p, title).songs) + multiset{p.songs[IndexOfTitle(p.songs, title)]} == multiset(p.songs)
  {
    var k := IndexOfTitle(p.songs, title);
    if k < |p.songs| {
      RemoveAtMultiset(p.songs, k);
    }
  }

  /**
   * Removing a song that is not playing leaves the same song playing; removing
   * the playing song hands over to the song after it, or to the head.
   */
  lemma RemovedPlaying(p: Playlist, title: string)
    requires Inv(p) && IndexOfTitle(p.songs, title) < |p.songs|
    requires |p.songs| >= 2
    ensures var r, k, c := Removed(p, title), IndexOfTitle(p.songs, title), p.current.value;
      && r.current.Some?
      && r.songs[r.current.value] ==
        if c != k then p.songs[c]
        else if k + 1 < |p.songs| then p.songs[k + 1]
        else p.songs[0]
  {
  }

  /** A song with a new title that is added and then removed leaves the playlist as it was. */
  lemma {:induction false} AddThenRemove(p: Playlist, s: Song)
    requires Inv(p) && IndexOfTitle(p.songs, s.title) == |p.songs|
    ensures Inv(Added(p, s))
    ensures Removed(Added(p, s), s.title) == p
  {
    TitleAppended(p.songs, s);
    assert RemoveAt(p.songs + [s], |p.songs|) == p.songs;
  }

  /** A title missing from the list is found at the song appended after it. */
  lemma {:induction false} TitleAppended(ss: seq<Song>, s: Song)
    requires IndexOfTitle(ss, s.title) == |ss|
    ensures IndexOfTitle(ss + [s], s.title) == |ss|
  {
    if ss != [] {
      assert (ss + [s])[1..] == ss[1..] + [s];
      TitleAppended(ss[1..], s);
    }
  }

  /** Play previous undoes play next, and play next undoes play previous. */
  lemma NextThenPrevious(p: Playlist)
    requires Inv(p)
    ensures Inv(Nexted(p)) && Inv(Preceded(p))
    ensures Preceded(Nexted(p)) == p
    ensures Nexted(Preceded(p)) == p
  {
  }

  /** Playing next a + b times is playing next a times and then b times. */
  lemma {:induction false} NextedTimesAdd(p: Playlist, a: nat, b: nat)
    requires Inv(p)
    ensures NextedTimes(p, a + b) == NextedTimes(NextedTimes(p, a), b)
    decreases b
  {
    if b > 0 {
      NextedTimesAdd(p, a, b - 1);
    }
  }

  /** Play next walks forward one song at a time until the tail. */
  lemma {:induction false} NextedTimesWalks(p: Playlist, n: nat)
    requires Inv(p) && p.current.Some? && p.current.value + n < |p.songs|
    ensures NextedTimes(p, n).current == Some(p.current.value + n)
    decreases n
  {
    if n > 0 {
      NextedTimesWalks(p, n - 1);
    }
  }

  /** Playing next once per song comes back round to the song that was playing. */
  lemma {:induction false} FullCircle(p: Playlist)
    requires Inv(p)
    ensures NextedTimes(p, |p.songs|) == p
  {
    if p.current.Some? {
      var c, n := p.current.value, |p.songs|;
      var m := n - 1 - c;
      NextedTimesWalks(p, m);
      var q := NextedTimes(p, m + 1);
      assert q == Nexted(NextedTimes(p, m));
      assert q == p.(current := Some(0));
      NextedTimesWalks(q, c);
      NextedTimesAdd(p, m + 1, c);
      assert m + 1 + c == n;
    } else {
      NoneStays(p, |p.songs|);
    }
  }

  /** With nothing playing, play next changes nothing however often it is pressed. */
  lemma {:induction false} NoneStays(p: Playlist, n: nat)
    requires Inv(p) && p.current.None?
    ensures NextedTimes(p, n) == p
  {
    if n > 0 {
      NoneStays(p, n - 1);
    }
  }

  /** The removal search: walks from the head to the first song with the title. */
  method FindTitle(ss: seq<Song>, title: string) returns (k: nat)
    ensures k == IndexOfTitle(ss, title)
  {
    k := 0;
    while k < |ss| && ss[k].title != title
      invariant k <= |ss|
      invariant forall i :: 0 <= i < k ==> ss[i].title != title
    {
      k := k + 1;
    }
    TitleAt(ss, title, k);
  }

  /** IndexOfTitle is the index at which the search stops. */
  lemma TitleAt(ss: seq<Song>, title: string, k: nat)
    requires k <= |ss|
    requires forall i :: 0 <= i < k ==> ss[i].title != title
    requires k < |ss| ==> ss[k].title == title
    ensures IndexOfTitle(ss, title) == k
  {
  }

  // ---------------------------------------------------------------------
  // The playlist, updated in place

  class AudioPlaylist {
    var songs: seq<Song>
    var current: Option<nat>
    var totalSongs: int

    ghost function State(): Playlist
      reads this
    {
      Playlist(songs, current, totalSongs)
    }

    ghost predicate Valid()
      reads this
    {
      Inv(State())
    }

    constructor ()
      ensures Valid() && State() == Playlist([], None, 0)
    {
      songs := [];
      current := None;
      totalSongs := 0;
    }

    method AddSong(title: string, artist: string, duration: int)
      requires Valid()
      modifies this
      ensures Valid()
      ensures State() == Added(old(State()), Song(title, artist, duration))
    {
      var s := Song(title, artist, duration);
      if songs == [] {
        songs := [s];
        current := Some(0);
      } else {
        songs := songs + [s];
      }
      totalSongs := totalSongs + 1;
    }

    method RemoveSong(title: string)
      requires Valid()
      modifies this
      ensures Valid()
      ensures State() == Removed(old(State()), title)
    {
      RemovedInv(State(), title);
      var k := FindTitle(songs, title);
      if k == |songs| {
        return;
      }
      var rest := RemoveAt(songs, k);
      var c := current.value;
      var playing := current;
      if c == k {
        playing := if k + 1 < |songs| then Some(k) else if rest == [] then None else Some(0);
      } else if c > k {
        playing := Some(c - 1);
      }
      songs, current, totalSongs := rest, playing, totalSongs - 1;
    }

    method PlayNext()
      requires Valid()
      modifies this
      ensures Valid()
      ensures State() == Nexted(old(State()))
    {
      if current.None? {
        return;
      }
      if current.value + 1 < |songs| {
        current := Some(current.value + 1);
      } else {
        current := Some(0);
      }
    }

    method PlayPrevious()
      requires Valid()
      modifies this
      ensures Valid()
      ensures State() == Preceded(old(State()))
    {
      if current.None? {
        return;
      }
      if current.value > 0 {
        current := Some(current.value - 1);
      } else {
        current := Some(|songs| - 1);
      }
    }
  }
}
