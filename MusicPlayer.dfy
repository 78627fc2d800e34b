/** The background music player: a non-empty list of songs, the index of the
    current one with wrap-around skipping, advancing when a track ends, and
    the play, mute and volume state. The audio element itself (loading,
    playing, seeking) is not part of the model; it is taken to be mounted,
    so the `ended` event reaches both the listener the effect registers and
    the `onEnded` prop. */
module MusicPlayer {
  import opened JsText

  datatype Song = Song(src: string, title: string)

  /** The track used when neither a playlist nor a source is given. */
  const DefaultSong := Song("/imperium-ryan-taubert-musicbed.mp3", "Imperium - Ryan Taubert")

  /** The song list chosen on mount: the playlist when it is non-empty, else
      a one-song list of `audioSrc` when that is a non-empty string (the
      `if (audioSrc)` test), else the default track. */
  function InitialSongs(playlist: seq<Song>, audioSrc: Option<string>, audioTitle: string): (songs: seq<Song>)
    ensures |songs| >= 1
    ensures |playlist| > 0 ==> songs == playlist
    ensures |playlist| == 0 && audioSrc.Some? && audioSrc.value != "" ==> songs == [Song(audioSrc.value, audioTitle)]
    ensures |playlist| == 0 && (audioSrc.None? || audioSrc.value == "") ==> songs == [DefaultSong]
  {
    if |playlist| > 0 then playlist
    else if audioSrc.Some? && audioSrc.value != "" then [Song(audioSrc.value, audioTitle)]
    else [DefaultSong]
  }

  /** The index after `playNextSong` in a list of `n` songs. */
  function NextIndex(i: int, n: int): (j: int)
    requires 0 <= i < n
    ensures 0 <= j < n
  {
    if i < n - 1 then i + 1 else 0
  }

  /** The index after `playPreviousSong` in a list of `n` songs. */
  function PrevIndex(i: int, n: int): (j: int)
    requires 0 <= i < n
    ensures 0 <= j < n
  {
    if i > 0 then i - 1 else n - 1
  }

  /** Skipping forward is moving to the successor modulo the list length;
      skipping back is moving to the predecessor modulo the list length. */
  lemma SkipIsModular(i: int, n: int)
    requires 0 <= i < n
    ensures NextIndex(i, n) == (i + 1) % n
    ensures PrevIndex(i, n) == (i - 1 + n) % n
  {
    if i == n - 1 {
      assert (i + 1) % n == 0;
    } else {
      assert (i + 1) % n == i + 1;
    }
    if i == 0 {
      assert (i - 1 + n) % n == n - 1;
    } else {
      assert (i - 1 + n) % n == i - 1;
    }
  }

  /** Skipping forward then back, or back then forward, returns to the same song. */
  lemma SkipRoundTrip(i: int, n: int)
    requires 0 <= i < n
    ensures PrevIndex(NextIndex(i, n), n) == i
    ensures NextIndex(PrevIndex(i, n), n) == i
  {
  }

  /** The index after a track ends, as the two `ended` handlers together
      leave it: the effect's `addEventListener('ended', …)` and the
      `<audio onEnded>` prop both run for the same event, and before the last
      song each queues `idx => idx + 1`. */
  function EndedIndexAsWritten(i: int, n: int): (j: int)
    requires 0 <= i < n
    ensures j >= i
    ensures i < n - 1 ==> j == i + 2
    ensures i == n - 1 ==> j == i
  {
    if i < n - 1 then i + 1 + 1 else i
  }

  /** Before the second-to-last song's end, both handlers advance, and the
      index lands one past the end of the list. */
  lemma EndedIndexAsWrittenOverruns(n: int)
    requires n >= 2
    ensures EndedIndexAsWritten(n - 2, n) == n
    ensures !(EndedIndexAsWritten(n - 2, n) < n)
  {
  }

  /** The index after a track ends when one handler advances it: the next
      song before the last one, unchanged on the last. */
  function EndedIndex(i: int, n: int): (j: int)
    requires 0 <= i < n
    ensures 0 <= j < n
    ensures i < n - 1 ==> j == NextIndex(i, n)
    ensures i == n - 1 ==> j == i
  {
    if i < n - 1 then i + 1 else i
  }

  /** `formatTime` for a whole, non-negative number of seconds: the minutes,
      a colon, and the seconds padded to two digits. */
  function FormatTime(t: nat): (r: string)
    ensures ':' in r
  {
    var minutes := t / 60;
    var seconds := t % 60;
    var s := NatToString(minutes) + ":" + PadStart2(NatToString(seconds));
    assert s[|NatToString(minutes)|] == ':';
    s
  }

  /** The digits of a two-digit-padded number below 100 read back as the number. */
  lemma ParsePadded(s: nat)
    requires s < 100
    ensures AllDigits(PadStart2(NatToString(s)))
    ensures ParseInt(PadStart2(NatToString(s))) == Some(s)
  {
    PaddedDigits(NatToString(s));
    ParseIntOfDigits(PadStart2(NatToString(s)));
  }

  /** Padding a run of digits with zeros keeps its value. */
  lemma PaddedDigits(d: string)
    requires |d| >= 1 && AllDigits(d)
    ensures AllDigits(PadStart2(d)) && DigitsValue(PadStart2(d)) == DigitsValue(d)
  {
    if |d| == 1 {
      var p := PadStart2(d);
      assert p == ['0', d[0]];
      assert p[..1] == ['0'] && ['0'][..0] == [] && d[..0] == [];
    }
  }

  /** The text `formatTime` shows splits at the colon into the minutes and
      the two-digit seconds, which read back as `t / 60` and `t % 60`, so
      together they give back `t`. */
  lemma FormatTimeRoundTrip(t: nat)
    ensures var parts := Split(FormatTime(t), ':');
      && |parts| == 2 && |parts[1]| == 2
      && ParseInt(parts[0]) == Some(t / 60) && ParseInt(parts[1]) == Some(t % 60)
      && 60 * (t / 60) + t % 60 == t
  {
    var m := NatToString(t / 60);
    var sec := PadStart2(NatToString(t % 60));
    ParsePadded(t % 60);
    assert ':' !in m by {
      assert forall i :: 0 <= i < |m| ==> IsDigit(m[i]);
    }
    assert ':' !in sec by {
      assert forall i :: 0 <= i < |sec| ==> IsDigit(sec[i]);
    }
    assert FormatTime(t) == m + [':'] + sec;
    SplitTwo(m, sec, ':');
    ParseIntOfNatToString(t / 60);
  }

  /** The player's state. */
  class Player {
    const songs: seq<Song>
    var currentSongIndex: int
    var isPlaying: bool
    var isMuted: bool
    var volume: real
    var showPlaylist: bool

    /** The song list is never empty and the index always names one of its songs. */
    ghost predicate Valid()
      reads this
    {
      |songs| >= 1 && 0 <= currentSongIndex < |songs|
    }

    /** Mounting: the song list chosen once, the first song, paused, unmuted,
        volume 0.7, playlist closed. */
    constructor (playlist: seq<Song>, audioSrc: Option<string>, audioTitle: string)
      ensures Valid()
      ensures songs == InitialSongs(playlist, audioSrc, audioTitle)
      ensures currentSongIndex == 0 && !isPlaying && !isMuted && volume == 0.7 && !showPlaylist
    {
      songs := InitialSongs(playlist, audioSrc, audioTitle);
      currentSongIndex := 0;
      isPlaying := false;
      isMuted := false;
      volume := 0.7;
      showPlaylist := false;
    }

    /** `playNextSong`: the next song, or back to the first after the last. */
    method PlayNextSong()
      requires Valid()
      modifies this
      ensures Valid()
      ensures currentSongIndex == NextIndex(old(currentSongIndex), |songs|)
      ensures isPlaying == old(isPlaying) && isMuted == old(isMuted) && volume == old(volume)
      ensures showPlaylist == old(showPlaylist)
    {
      if currentSongIndex < |songs| - 1 {
        currentSongIndex := currentSongIndex + 1;
      } else {
        currentSongIndex := 0;
      }
    }

    /** `playPreviousSong`: the previous song, or on to the last from the first. */
    method PlayPreviousSong()
      requires Valid()
      modifies this
      ensures Valid()
      ensures currentSongIndex == PrevIndex(old(currentSongIndex), |songs|)
      ensures isPlaying == old(isPlaying) && isMuted == old(isMuted) && volume == old(volume)
      ensures showPlaylist == old(showPlaylist)
    {
      if currentSongIndex > 0 {
        currentSongIndex := currentSongIndex - 1;
      } else {
        currentSongIndex := |songs| - 1;
      }
    }

    /** A track ended, handled once as the handlers intend: on to the next
        song unless it was the last, in which case playback stops and the
        index stays. */
    method HandleEnded()
      requires Valid()
      modifies this
      ensures Valid()
      ensures currentSongIndex == EndedIndex(old(currentSongIndex), |songs|)
      ensures isPlaying == (old(isPlaying) && old(currentSongIndex) < |songs| - 1)
      ensures isMuted == old(isMuted) && volume == old(volume) && showPlaylist == old(showPlaylist)
    {
      if currentSongIndex < |songs| - 1 {
        PlayNextSong();
      } else {
        isPlaying := false;
      }
    }

    /** A track ended, with both handlers run as the component registers
        them: each reads the index of the last render, and before the last
        song each queues one advance, so the index moves by two; on the last
        song both stop playback. The player stays valid exactly when the song
        that ended was not the second-to-last one. */
    method HandleEndedAsWritten()
      requires Valid()
      modifies this
      ensures currentSongIndex == EndedIndexAsWritten(old(currentSongIndex), |songs|)
      ensures Valid() <==> old(currentSongIndex) != |songs| - 2
      ensures isPlaying == (old(isPlaying) && old(currentSongIndex) < |songs| - 1)
      ensures isMuted == old(isMuted) && volume == old(volume) && showPlaylist == old(showPlaylist)
    {
      var rendered := currentSongIndex;
      // the listener added by the effect
      if rendered < |songs| - 1 {
        currentSongIndex := currentSongIndex + 1;
      } else {
        isPlaying := false;
      }
      // the `onEnded` prop, through `playNextSong`
      if rendered < |songs| - 1 {
        currentSongIndex := currentSongIndex + 1;
      } else {
        isPlaying := false;
      }
    }

    /** `selectSong`: the chosen entry of the playlist becomes current and the
        playlist closes. */
    method SelectSong(index: int)
      requires Valid() && 0 <= index < |songs|
      modifies this
      ensures Valid()
      ensures currentSongIndex == index && !showPlaylist
      ensures isPlaying == old(isPlaying) && isMuted == old(isMuted) && volume == old(volume)
    {
      currentSongIndex := index;
      showPlaylist := false;
    }

    /** `togglePlay`: playing becomes paused and paused becomes playing. */
    method TogglePlay()
      modifies this
      ensures isPlaying == !old(isPlaying)
      ensures currentSongIndex == old(currentSongIndex) && isMuted == old(isMuted) && volume == old(volume)
      ensures showPlaylist == old(showPlaylist)
    {
      isPlaying := !isPlaying;
    }

    /** `toggleMute`. */
    method ToggleMute()
      modifies this
      ensures isMuted == !old(isMuted)
      ensures currentSongIndex == old(currentSongIndex) && isPlaying == old(isPlaying) && volume == old(volume)
      ensures showPlaylist == old(showPlaylist)
    {
      isMuted := !isMuted;
    }

    /** `handleVolumeChange`: the new volume is set; volume 0 mutes, and any
        other volume unmutes a muted player, so afterwards the player is
        muted exactly when the volume is 0. */
    method HandleVolumeChange(newVolume: real)
      modifies this
      ensures volume == newVolume
      ensures isMuted <==> newVolume == 0.0
      ensures currentSongIndex == old(currentSongIndex) && isPlaying == old(isPlaying)
      ensures showPlaylist == old(showPlaylist)
    {
      volume := newVolume;
      if newVolume == 0.0 {
        isMuted := true;
      } else if isMuted {
        isMuted := false;
      }
    }
  }
}
