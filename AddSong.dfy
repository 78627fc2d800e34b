/** The playlist helper script: from the `.mp3` files of the music folder and
    the numbers typed in, it builds one playlist entry per chosen file and
    splices them into the `spacePlaylist` array of the page source. The
    folder listing, the page text and the answers typed are inputs; reading
    and writing the files is not modelled. */
module AddSong {
  import opened JsText

  /** `files.filter(file => file.endsWith('.mp3'))`. */
  function Mp3Files(files: seq<string>): (r: seq<string>)
    ensures |r| <= |files|
    ensures forall i :: 0 <= i < |r| ==> EndsWith(r[i], ".mp3") && r[i] in files
    ensures forall i :: 0 <= i < |files| && EndsWith(files[i], ".mp3") ==> files[i] in r
  {
    if files == [] then []
    else (if EndsWith(files[0], ".mp3") then [files[0]] else []) + Mp3Files(files[1..])
  }

  /** The filter keeps the listing's order and repeats: the `.mp3` files of
      two listings one after the other are those of the first, then those
      of the second. */
  lemma {:induction false} Mp3FilesConcat(a: seq<string>, b: seq<string>)
    ensures Mp3Files(a + b) == Mp3Files(a) + Mp3Files(b)
  {
    if a == [] {
      assert a + b == b;
    } else {
      assert (a + b)[0] == a[0];
      assert (a + b)[1..] == a[1..] + b;
      Mp3FilesConcat(a[1..], b);
    }
  }

  /** `fileNumbers.split(',').map(n => parseInt(n.trim()) - 1)`: one entry per
      comma-separated piece, `None` for a piece with no number (`NaN`). */
  function SelectedIndices(fileNumbers: string): (r: seq<Option<int>>)
    ensures |r| == |Split(fileNumbers, ',')|
  {
    var parts := Split(fileNumbers, ',');
    seq(|parts|, i requires 0 <= i < |parts| =>
      match ParseInt(Trim(parts[i])) case None => None case Some(n) => Some(n - 1))
  }

  /** An index that names one of `n` files (`i >= 0 && i < files.length`;
      `NaN` fails both tests). */
  predicate InRange(i: Option<int>, n: int) {
    i.Some? && 0 <= i.value < n
  }

  /** `selectedIndices.filter(i => i >= 0 && i < files.length).map(i => files[i])`. */
  function SelectedFiles(files: seq<string>, indices: seq<Option<int>>): (r: seq<string>)
    ensures |r| <= |indices|
    ensures forall k :: 0 <= k < |r| ==> r[k] in files
    ensures (forall k :: 0 <= k < |indices| ==> !InRange(indices[k], |files|)) <==> r == []
  {
    if indices == [] then []
    else
      var rest := SelectedFiles(files, indices[1..]);
      var head := if InRange(indices[0], |files|) then [files[indices[0].value]] else [];
      assert forall k :: 1 <= k < |indices| ==> indices[1..][k - 1] == indices[k];
      head + rest
  }

  /** The filter keeps the input order: selecting from two lists of indices
      one after the other gives the files of the first, then those of the second. */
  lemma {:induction false} SelectedFilesConcat(files: seq<string>, a: seq<Option<int>>, b: seq<Option<int>>)
    ensures SelectedFiles(files, a + b) == SelectedFiles(files, a) + SelectedFiles(files, b)
  {
    if a == [] {
      assert a + b == b;
    } else {
      assert (a + b)[0] == a[0];
      assert (a + b)[1..] == a[1..] + b;
      SelectedFilesConcat(files, a[1..], b);
    }
  }

  /** The text typed for the numbers `ns`: their decimal forms joined by commas. */
  function NumbersText(ns: seq<nat>): string
    requires |ns| >= 1
  {
    Join(seq(|ns|, i requires 0 <= i < |ns| => NatToString(ns[i])), ',')
  }

  /** Typing numbers separated by commas gives, for each of them in order,
      the index one below it. */
  lemma {:induction false} TypedNumbers(ns: seq<nat>)
    requires |ns| >= 1
    ensures |SelectedIndices(NumbersText(ns))| == |ns|
    ensures forall i :: 0 <= i < |ns| ==> SelectedIndices(NumbersText(ns))[i] == Some(ns[i] as int - 1)
  {
    var strs := seq(|ns|, i requires 0 <= i < |ns| => NatToString(ns[i]));
    forall i | 0 <= i < |strs| ensures ',' !in strs[i] {
      DigitsExclude(strs[i], ',');
    }
    SplitJoin(strs, ',');
    assert Split(NumbersText(ns), ',') == strs;
    forall i | 0 <= i < |strs| ensures ParseInt(Trim(strs[i])) == Some(ns[i]) {
      TrimDigits(strs[i]);
      ParseIntOfNatToString(ns[i]);
    }
  }

  /** When every index names a file, each of them selects its file, in order. */
  lemma {:induction false} SelectedFilesInRange(files: seq<string>, indices: seq<Option<int>>)
    requires forall k :: 0 <= k < |indices| ==> InRange(indices[k], |files|)
    ensures |SelectedFiles(files, indices)| == |indices|
    ensures forall k :: 0 <= k < |indices| ==> SelectedFiles(files, indices)[k] == files[indices[k].value]
  {
    if indices != [] {
      SelectedFilesInRange(files, indices[1..]);
      assert forall k :: 1 <= k < |indices| ==> indices[1..][k - 1] == indices[k];
    }
  }

  /** Typing numbers of listed files, separated by commas, selects those
      files (numbered from 1) in the order typed. */
  lemma {:induction false} SelectTyped(files: seq<string>, ns: seq<nat>)
    requires |ns| >= 1
    requires forall i :: 0 <= i < |ns| ==> 1 <= ns[i] <= |files|
    ensures |SelectedFiles(files, SelectedIndices(NumbersText(ns)))| == |ns|
    ensures forall i :: 0 <= i < |ns| ==> SelectedFiles(files, SelectedIndices(NumbersText(ns)))[i] == files[ns[i] - 1]
  {
    TypedNumbers(ns);
    var idx := SelectedIndices(NumbersText(ns));
    forall k | 0 <= k < |idx| ensures InRange(idx[k], |files|) {
      assert idx[k] == Some(ns[k] as int - 1);
    }
    SelectedFilesInRange(files, idx);
    forall i | 0 <= i < |ns| ensures SelectedFiles(files, idx)[i] == files[ns[i] - 1] {
      assert idx[i].value == ns[i] - 1;
    }
  }

  /** Typing `n` selects the `n`-th file listed (numbered from 1). */
  lemma SelectOne(files: seq<string>, n: nat)
    requires 1 <= n <= |files|
    ensures SelectedFiles(files, SelectedIndices(NatToString(n))) == [files[n - 1]]
  {
    assert NumbersText([n]) == NatToString(n);
    SelectTyped(files, [n]);
  }

  /** Typing a number outside the listing selects nothing. */
  lemma SelectOutOfRange(files: seq<string>, n: nat)
    requires n == 0 || n > |files|
    ensures SelectedFiles(files, SelectedIndices(NatToString(n))) == []
  {
    assert NumbersText([n]) == NatToString(n);
    TypedNumbers([n]);
  }

  /** `file.replace('.mp3', '').replace(/-/g, ' ')`: the first `.mp3` removed
      and every hyphen turned into a space. */
  function DefaultTitle(file: string): (title: string)
    ensures '-' !in title
    ensures |title| == |file| - (if IndexOf(file, ".mp3").Some? then 4 else 0)
  {
    var t := ReplaceAllChar(ReplaceFirst(file, ".mp3", ""), '-', ' ');
    assert forall i :: 0 <= i < |t| ==> t[i] != '-';
    t
  }

  /** The indentation an entry opens with. */
  const EntryOpen := "\n  { \n    "

  /** The text between the two fields of an entry. */
  const FieldSep := ", \n    "

  /** The text an entry closes with. */
  const EntryClose := " \n  },"

  /** The `src` field of the entry for `file`: its path under `/music/`. */
  function SrcField(file: string): string {
    "src: '/music/" + file + "'"
  }

  /** The `title` field of the entry for `file`. */
  function TitleField(file: string): string {
    "title: '" + DefaultTitle(file) + "'"
  }

  /** The playlist entry generated for one file: its `src` field, then its
      `title` field, each where the template puts it. */
  function Entry(file: string): (e: string)
    ensures OccursAt(e, SrcField(file), |EntryOpen|)
    ensures OccursAt(e, TitleField(file), |EntryOpen| + |SrcField(file)| + |FieldSep|)
    ensures |e| == |EntryOpen| + |SrcField(file)| + |FieldSep| + |TitleField(file)| + |EntryClose|
  {
    var a := EntryOpen;
    var b := SrcField(file);
    var c := FieldSep;
    var d := TitleField(file);
    var e := a + b + c + d + EntryClose;
    assert e[|a|..|a| + |b|] == b;
    assert e[|a| + |b| + |c|..|a| + |b| + |c| + |d|] == d;
    e
  }

  /** `selectedFiles.map(file => entry).join('')`. */
  function NewEntries(files: seq<string>): string {
    if files == [] then "" else Entry(files[0]) + NewEntries(files[1..])
  }

  /** The generated text is the entries of the files one after the other:
      one entry per file, in order. */
  lemma {:induction false} NewEntriesConcat(a: seq<string>, b: seq<string>)
    ensures NewEntries(a + b) == NewEntries(a) + NewEntries(b)
  {
    if a == [] {
      assert a + b == b;
    } else {
      assert (a + b)[0] == a[0];
      assert (a + b)[1..] == a[1..] + b;
      NewEntriesConcat(a[1..], b);
    }
  }

  /** `playlistContent.includes('src:') ? playlistContent + newEntries : newEntries`. */
  function UpdatedContent(playlistContent: string, newEntries: string): (r: string)
    ensures EndsWith(r, newEntries)
    ensures Includes(playlistContent, "src:") ==> r == playlistContent + newEntries
    ensures !Includes(playlistContent, "src:") ==> r == newEntries
  {
    var r := if Includes(playlistContent, "src:") then playlistContent + newEntries else newEntries;
    assert r[|r| - |newEntries|..] == newEntries;
    r
  }

  /** JavaScript's `s.substring(a, b)`: both bounds clamped to `0..|s|`, and
      swapped when the first is the larger. */
  function Substring(s: string, a: int, b: int): (r: string)
    ensures 0 <= a <= b <= |s| ==> r == s[a..b]
  {
    var x := if a < 0 then 0 else if a > |s| then |s| else a;
    var y := if b < 0 then 0 else if b > |s| then |s| else b;
    if x <= y then s[x..y] else s[y..x]
  }

  /** `data.substring(0, startIndex) + updatedContent + data.substring(endIndex)`. */
  function UpdatedData(data: string, startIndex: int, endIndex: int, updatedContent: string): string {
    Substring(data, 0, startIndex) + updatedContent + Substring(data, endIndex, |data|)
  }

  /** For bounds in order, the splice is the text before `startIndex`, the
      new content and the text from `endIndex` on. */
  lemma {:induction false} UpdatedDataParts(data: string, startIndex: int, endIndex: int, updatedContent: string)
    requires 0 <= startIndex <= endIndex <= |data|
    ensures UpdatedData(data, startIndex, endIndex, updatedContent) == data[..startIndex] + updatedContent + data[endIndex..]
  {
    assert Substring(data, 0, startIndex) == data[..startIndex];
    assert Substring(data, endIndex, |data|) == data[endIndex..];
  }

  /** For bounds in order, the splice keeps the text before `startIndex` and
      from `endIndex` on, with exactly the new content between them. */
  lemma SplicePreserves(data: string, startIndex: int, endIndex: int, updatedContent: string)
    requires 0 <= startIndex <= endIndex <= |data|
    ensures var r := UpdatedData(data, startIndex, endIndex, updatedContent);
      && |r| == startIndex + |updatedContent| + (|data| - endIndex)
      && r[..startIndex] == data[..startIndex]
      && r[startIndex..startIndex + |updatedContent|] == updatedContent
      && r[startIndex + |updatedContent|..] == data[endIndex..]
  {
  }

  /** The text the playlist declaration starts with (`/const spacePlaylist = \[/`). */
  const PlaylistStart := "const spacePlaylist = ["

  /** The bounds of the playlist's contents as the script computes them: just
      after the first `const spacePlaylist = [`, up to the first `];` after
      that, or -1 (`indexOf`'s answer) when no `];` follows; `None` when the
      page has no `const spacePlaylist = [` or no `];` anywhere. */
  function LocatePlaylistAsWritten(data: string): (r: Option<(int, int)>)
    ensures r.Some? <==> IndexOf(data, PlaylistStart).Some? && IndexOf(data, "];").Some?
    ensures r.Some? ==> r.value.0 == IndexOf(data, PlaylistStart).value + |PlaylistStart| <= |data|
    ensures r.Some? ==> r.value.1 == -1 || (r.value.0 <= r.value.1 && OccursAt(data, "];", r.value.1))
    ensures r.Some? ==> forall j :: r.value.0 <= j && (r.value.1 == -1 || j < r.value.1) ==> !OccursAt(data, "];", j)
  {
    match (IndexOf(data, PlaylistStart), IndexOf(data, "];"))
    case (Some(s), Some(_)) =>
      var startIndex := s + |PlaylistStart|;
      OccursInTailIff(data, startIndex, "];");
      (match IndexOf(data[startIndex..], "];")
       case None => Some((startIndex, -1))
       case Some(k) => Some((startIndex, startIndex + k)))
    case _ => None
  }

  /** The bounds of the playlist's contents as intended: the first `];` at or
      after the start closes the playlist, and the playlist is not found when
      there is none there. */
  function LocatePlaylist(data: string): (r: Option<(int, int)>)
    ensures r.Some? <==> LocatePlaylistAsWritten(data).Some? && LocatePlaylistAsWritten(data).value.1 != -1
    ensures r.Some? ==>
      && r.value.0 == IndexOf(data, PlaylistStart).value + |PlaylistStart|
      && r.value.0 <= r.value.1 && OccursAt(data, "];", r.value.1)
      && forall j :: r.value.0 <= j < r.value.1 ==> !OccursAt(data, "];", j)
    ensures r.Some? ==> LocatePlaylistAsWritten(data) == r
  {
    match LocatePlaylistAsWritten(data)
    case Some((startIndex, endIndex)) =>
      if endIndex == -1 then None else Some((startIndex, endIndex))
    case None => None
  }

  /** A match in a tail of a text is a match in the text, shifted by where
      the tail starts, and the other way round. */
  lemma OccursInTailIff(s: string, i: int, pat: string)
    requires 0 <= i <= |s|
    ensures forall j :: i <= j ==> (OccursAt(s, pat, j) <==> OccursAt(s[i..], pat, j - i))
  {
    forall j | i <= j ensures OccursAt(s, pat, j) <==> OccursAt(s[i..], pat, j - i) {
      if j + |pat| <= |s| {
        assert s[j..j + |pat|] == s[i..][j - i..j - i + |pat|];
      }
    }
  }

  /** A suffix of the second part is a suffix of the whole. */
  lemma EndsWithConcat(x: string, y: string, suffix: string)
    requires EndsWith(y, suffix)
    ensures EndsWith(x + y, suffix)
  {
    assert (x + y)[|x + y| - |suffix|..] == y[|y| - |suffix|..];
  }

  /** The page text written once the playlist is found and some files are
      chosen: the contents between the bounds, trimmed, get the chosen files'
      entries appended (or replaced by them when they hold no `src:`), and
      are spliced back between the bounds. */
  function Spliced(data: string, startIndex: int, endIndex: int, selectedFiles: seq<string>): string {
    SplicedText(data, startIndex, endIndex, NewEntries(selectedFiles))
  }

  /** The splice for a given text of new entries. */
  function SplicedText(data: string, startIndex: int, endIndex: int, newEntries: string): string {
    var playlistContent := Trim(Substring(data, startIndex, endIndex));
    UpdatedData(data, startIndex, endIndex, UpdatedContent(playlistContent, newEntries))
  }

  /** With the bounds in order, the written page is the text before the
      contents, the updated contents, and the text from the end bound on:
      the old trimmed contents followed by the new entries when they hold a
      `src:` field, only the new entries otherwise. */
  lemma SplicedTextParts(data: string, startIndex: int, endIndex: int, newEntries: string)
    requires 0 <= startIndex <= endIndex <= |data|
    ensures var content := Trim(data[startIndex..endIndex]);
      && (Includes(content, "src:") ==>
            SplicedText(data, startIndex, endIndex, newEntries) == data[..startIndex] + content + newEntries + data[endIndex..])
      && (!Includes(content, "src:") ==>
            SplicedText(data, startIndex, endIndex, newEntries) == data[..startIndex] + newEntries + data[endIndex..])
  {
    assert Substring(data, startIndex, endIndex) == data[startIndex..endIndex];
    assert Substring(data, 0, startIndex) == data[..startIndex];
    assert Substring(data, endIndex, |data|) == data[endIndex..];
  }

  /** With the closing `];` after the start, the written page keeps the old
      playlist contents (when they hold an entry) ahead of the new entries,
      and replaces them by the new entries otherwise. */
  lemma SplicedContents(data: string, startIndex: int, endIndex: int, selectedFiles: seq<string>)
    requires 0 <= startIndex <= endIndex <= |data|
    ensures var content := Trim(data[startIndex..endIndex]);
      var r := Spliced(data, startIndex, endIndex, selectedFiles);
      && |r| >= startIndex + (|data| - endIndex)
      && (Includes(content, "src:") ==> r[startIndex..|r| - (|data| - endIndex)] == content + NewEntries(selectedFiles))
      && (!Includes(content, "src:") ==> r[startIndex..|r| - (|data| - endIndex)] == NewEntries(selectedFiles))
  {
    SplicedTextParts(data, startIndex, endIndex, NewEntries(selectedFiles));
  }

  /** When the closing `];` follows the playlist's start, the written page
      keeps everything before the playlist's contents and from the `];` on,
      and the new entries end the contents. */
  lemma SplicedKeepsPage(data: string, startIndex: int, endIndex: int, selectedFiles: seq<string>)
    requires 0 <= startIndex <= endIndex <= |data|
    ensures var r := Spliced(data, startIndex, endIndex, selectedFiles);
      && r[..startIndex] == data[..startIndex]
      && EndsWith(r, data[endIndex..])
      && EndsWith(r[..|r| - (|data| - endIndex)], NewEntries(selectedFiles))
  {
    SplicedTextKeepsPage(data, startIndex, endIndex, NewEntries(selectedFiles));
  }

  /** `SplicedKeepsPage` for a given text of new entries. */
  lemma {:induction false} SplicedTextKeepsPage(data: string, startIndex: int, endIndex: int, entries: string)
    requires 0 <= startIndex <= endIndex <= |data|
    ensures var r := SplicedText(data, startIndex, endIndex, entries);
      && r[..startIndex] == data[..startIndex]
      && EndsWith(r, data[endIndex..])
      && EndsWith(r[..|r| - (|data| - endIndex)], entries)
  {
    var content := UpdatedContent(Trim(Substring(data, startIndex, endIndex)), entries);
    var r := SplicedText(data, startIndex, endIndex, entries);
    assert r == UpdatedData(data, startIndex, endIndex, content);
    UpdatedDataKeeps(data, startIndex, endIndex, content, entries);
    assert r[..startIndex] == data[..startIndex];
    assert EndsWith(r, data[endIndex..]);
  }

  /** Splicing `m` between the text before `startIndex` and the text from
      `endIndex` on keeps both, and what precedes the kept tail ends like `m`. */
  lemma {:induction false} UpdatedDataKeeps(data: string, startIndex: int, endIndex: int, m: string, suffix: string)
    requires 0 <= startIndex <= endIndex <= |data|
    requires EndsWith(m, suffix)
    ensures var r := UpdatedData(data, startIndex, endIndex, m);
      && r[..startIndex] == data[..startIndex]
      && EndsWith(r, data[endIndex..])
      && EndsWith(r[..|r| - (|data| - endIndex)], suffix)
  {
    UpdatedDataParts(data, startIndex, endIndex, m);
    var a := data[..startIndex];
    var b := data[endIndex..];
    var r := a + m + b;
    assert r[..|a|] == a;
    assert r[|r| - |b|..] == b;
    assert r[..|r| - |b|] == a + m;
    EndsWithConcat(a, m, suffix);
  }

  /** As written, a page with a `];` only before the playlist's start gets end
      bound -1, and `data.substring(-1)` is then the whole page: the page is
      written out again after the new entries instead of the text from the
      closing `];` on. */
  lemma {:induction false} PlaylistEndMissingRepeatsPage(selectedFiles: seq<string>)
    ensures var data := "];" + PlaylistStart;
      && LocatePlaylistAsWritten(data) == Some((|data|, -1))
      && LocatePlaylist(data).None?
      && var r := Spliced(data, |data|, -1, selectedFiles);
         |r| >= 2 * |data| && r[..|data|] == data && EndsWith(r, data)
  {
    var data := "];" + PlaylistStart;
    PlaylistEndMissing();
    SplicedAtMissingEnd(data, selectedFiles);
  }

  /** On `];` followed by the playlist's start, the script's end bound is -1. */
  lemma PlaylistEndMissing()
    ensures var data := "];" + PlaylistStart;
      LocatePlaylistAsWritten(data) == Some((|data|, -1)) && LocatePlaylist(data).None?
  {
    var data := "];" + PlaylistStart;
    assert OccursAt(data, PlaylistStart, 2);
    assert !OccursAt(data, PlaylistStart, 0) by {
      assert data[0..|PlaylistStart|][0] == ']' != PlaylistStart[0];
    }
    assert !OccursAt(data, PlaylistStart, 1) by {
      assert data[1..1 + |PlaylistStart|][0] == ';' != PlaylistStart[0];
    }
    assert IndexOf(data, PlaylistStart) == Some(2);
    assert OccursAt(data, "];", 0);
    assert data[|data|..] == [];
    assert IndexOf(data[|data|..], "];").None?;
  }

  /** With the start bound at the end of the page and the end bound -1, the
      text before the contents and the text "from the end bound" are both
      the whole page, so the page is written twice around the contents. */
  lemma {:induction false} SplicedAtMissingEnd(data: string, selectedFiles: seq<string>)
    ensures var r := Spliced(data, |data|, -1, selectedFiles);
      |r| >= 2 * |data| && r[..|data|] == data && EndsWith(r, data)
  {
    var entries := NewEntries(selectedFiles);
    var content := UpdatedContent(Trim(Substring(data, |data|, -1)), entries);
    var r := Spliced(data, |data|, -1, selectedFiles);
    assert r == UpdatedData(data, |data|, -1, content);
    assert Substring(data, 0, |data|) == data;
    assert Substring(data, -1, |data|) == data;
    assert r == data + content + data;
    assert r[..|data|] == data;
    assert r[|r| - |data|..] == data;
  }

  /** The script's outcome: the new page text to write, or `None` when it
      stops without writing: the answer to "already placed?" is not `y`, the
      folder has no `.mp3` file, the page cannot be read, the page has no
      `const spacePlaylist = [` or no `];`, or no typed number names a file.
      The bounds are the script's own, end -1 included. */
  function AddSongs(answer: string, listing: seq<string>, page: Option<string>, fileNumbers: string): (r: Option<string>)
    ensures r.Some? <==>
      && (answer == "y" || answer == "Y")
      && page.Some? && LocatePlaylistAsWritten(page.value).Some?
      && SelectedFiles(Mp3Files(listing), SelectedIndices(fileNumbers)) != []
    ensures r.Some? ==> Mp3Files(listing) != []
    ensures r.Some? ==>
      r.value == Spliced(page.value, LocatePlaylistAsWritten(page.value).value.0, LocatePlaylistAsWritten(page.value).value.1,
        SelectedFiles(Mp3Files(listing), SelectedIndices(fileNumbers)))
  {
    var files := Mp3Files(listing);
    if !(answer == "y" || answer == "Y") || files == [] || page.None? then None
    else
      match LocatePlaylistAsWritten(page.value)
      case None => None
      case Some((startIndex, endIndex)) =>
        var selectedFiles := SelectedFiles(files, SelectedIndices(fileNumbers));
        if selectedFiles == [] then None
        else Some(Spliced(page.value, startIndex, endIndex, selectedFiles))
  }

  /** As written, the script writes a page even when no `];` follows the
      playlist's start: it then holds the whole old page twice, once before
      the new entries and once after them. */
  lemma {:induction false} AddSongsRepeatsPage(answer: string, listing: seq<string>, fileNumbers: string)
    requires answer == "y" || answer == "Y"
    requires SelectedFiles(Mp3Files(listing), SelectedIndices(fileNumbers)) != []
    ensures var page := "];" + PlaylistStart;
      var r := AddSongs(answer, listing, Some(page), fileNumbers);
      && r.Some? && LocatePlaylist(page).None?
      && |r.value| >= 2 * |page| && r.value[..|page|] == page && EndsWith(r.value, page)
  {
    PlaylistEndMissingRepeatsPage(SelectedFiles(Mp3Files(listing), SelectedIndices(fileNumbers)));
  }

  /** A page the script writes keeps the text before the playlist's contents
      and from its closing `];` on, and the new entries close the contents. */
  lemma {:induction false} AddSongsKeepsPage(answer: string, listing: seq<string>, page: string, fileNumbers: string,
                                             s: int, e: int, r: string)
    requires LocatePlaylist(page) == Some((s, e))
    requires AddSongs(answer, listing, Some(page), fileNumbers) == Some(r)
    ensures 0 <= s <= e <= |page| && OccursAt(page, "];", e)
    ensures r[..s] == page[..s]
    ensures EndsWith(r, page[e..])
    ensures EndsWith(r[..|r| - (|page| - e)], NewEntries(SelectedFiles(Mp3Files(listing), SelectedIndices(fileNumbers))))
  {
    AddSongsSplices(answer, listing, page, fileNumbers, s, e, r);
    KeepsPage(page, s, e, SelectedFiles(Mp3Files(listing), SelectedIndices(fileNumbers)), r);
  }

  /** `SplicedKeepsPage` for a page already computed. */
  lemma {:induction false} KeepsPage(page: string, s: int, e: int, files: seq<string>, r: string)
    requires 0 <= s <= e <= |page|
    requires r == Spliced(page, s, e, files)
    ensures r[..s] == page[..s]
    ensures EndsWith(r, page[e..])
    ensures EndsWith(r[..|r| - (|page| - e)], NewEntries(files))
  {
    var entries := NewEntries(files);
    assert r == SplicedText(page, s, e, entries);
    SplicedTextKeepsPage(page, s, e, entries);
  }

  /** With the intended bounds found, the page written is the splice at them. */
  lemma {:induction false} AddSongsSplices(answer: string, listing: seq<string>, page: string, fileNumbers: string,
                        s: int, e: int, r: string)
    requires LocatePlaylist(page) == Some((s, e))
    requires AddSongs(answer, listing, Some(page), fileNumbers) == Some(r)
    ensures 0 <= s <= e <= |page| && OccursAt(page, "];", e)
    ensures r == Spliced(page, s, e, SelectedFiles(Mp3Files(listing), SelectedIndices(fileNumbers)))
  {
    assert LocatePlaylistAsWritten(page) == Some((s, e));
  }


  /** The title, character by character: the file name with its first
      `.mp3` cut out and each hyphen turned into a space. */
  lemma DefaultTitleContent(file: string)
    ensures var title := DefaultTitle(file);
      IndexOf(file, ".mp3").None? ==>
        |title| == |file| && forall k :: 0 <= k < |file| ==> title[k] == Unhyphen(file[k])
    ensures var title := DefaultTitle(file);
      IndexOf(file, ".mp3").Some? ==>
        var i := IndexOf(file, ".mp3").value;
        && |title| == |file| - 4
        && (forall k :: 0 <= k < i ==> title[k] == Unhyphen(file[k]))
        && (forall k :: i <= k < |title| ==> title[k] == Unhyphen(file[k + 4]))
  {
    var u := ReplaceFirst(file, ".mp3", "");
    match IndexOf(file, ".mp3")
    case None =>
    case Some(i) =>
      assert u == file[..i] + file[i + 4..];
      assert forall k :: 0 <= k < i ==> u[k] == file[k];
      assert forall k :: i <= k < |u| ==> u[k] == file[k + 4];
  }

  /** A hyphen becomes a space in a title; every other character is kept. */
  function Unhyphen(c: char): (d: char)
    ensures d != '-'
    ensures c != '-' ==> d == c
  {
    if c == '-' then ' ' else c
  }

  /** The title of `name.mp3`, for a name with no dot, is the name with its
      hyphens turned into spaces, so a name with no hyphen is its own title. */
  lemma DefaultTitleOfName(name: string)
    requires '.' !in name
    ensures DefaultTitle(name + ".mp3") == ReplaceAllChar(name, '-', ' ')
    ensures '-' !in name ==> DefaultTitle(name + ".mp3") == name
  {
    var file := name + ".mp3";
    assert OccursAt(file, ".mp3", |name|);
    forall j | 0 <= j < |name| ensures !OccursAt(file, ".mp3", j) {
      assert file[j] == name[j] != '.';
      if j + 4 <= |file| {
        assert file[j..j + 4][0] == file[j];
      }
    }
    assert ReplaceFirst(file, ".mp3", "") == name;
    assert IndexOf(file, ".mp3") == Some(|name|);
  }

}
