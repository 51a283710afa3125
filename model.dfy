/** The stream registry of the viewer: the frames on the grid, their
    aggregate mute control, the clipboard export of their URLs, and the
    history file of streams watched in earlier sessions. */
module StreamModels {
  import opened Lines

  /** What is known of a stream before it is opened: its URL and the
      quality label to open it at. */
  datatype StreamDescriptor = StreamDescriptor(url: string, quality: string)

  /** The descriptor a new frame is built from. */
  function NewStream(streamUrl: string, streamQuality: string): (d: StreamDescriptor)
    ensures d.url == streamUrl && d.quality == streamQuality
  {
    StreamDescriptor(streamUrl, streamQuality)
  }

  /** A media player; only its audio mute state is modelled. */
  class Player {
    var muted: bool

    constructor (muted: bool)
      ensures this.muted == muted
    {
      this.muted := muted;
    }

    method AudioSetMute(status: bool)
      modifies this
      ensures muted == status
    {
      muted := status;
    }
  }

  /** One tile of the grid: its player, the tile's own mute override and
      the stream it plays. */
  datatype VideoFrame = VideoFrame(player: Player, isMuted: bool, stream: StreamDescriptor)

  /** The players of the frames. */
  function Players(frames: seq<VideoFrame>): set<Player> {
    set f | f in frames :: f.player
  }

  /** Whether muting with the box `checked` sets player p: when checked,
      every frame's player is set; otherwise only the players of frames that
      are not muted on their own. */
  ghost predicate Sets(frames: seq<VideoFrame>, checked: bool, p: Player) {
    exists j :: 0 <= j < |frames| && frames[j].player == p && (checked || !frames[j].isMuted)
  }

  lemma SetsAppend(frames: seq<VideoFrame>, i: nat, checked: bool, p: Player)
    requires i < |frames|
    ensures Sets(frames[..i + 1], checked, p) <==>
            Sets(frames[..i], checked, p) || (frames[i].player == p && (checked || !frames[i].isMuted))
  {
    assert frames[..i + 1][i] == frames[i];
    assert forall j :: 0 <= j < i ==> frames[..i + 1][j] == frames[..i][j];
  }

  /** The aggregate mute control. With the box checked every frame's
      player is muted; unchecked, the players of frames that are not muted on
      their own are unmuted and every other player keeps its state. */
  method MuteAll(frames: seq<VideoFrame>, checked: bool)
    modifies Players(frames)
    ensures forall k :: 0 <= k < |frames| ==>
      frames[k].player.muted == if Sets(frames, checked, frames[k].player) then checked else old(frames[k].player.muted)
    ensures checked ==> forall k :: 0 <= k < |frames| ==> frames[k].player.muted
    ensures !checked ==> forall k :: 0 <= k < |frames| && !frames[k].isMuted ==> !frames[k].player.muted
  {
    for i := 0 to |frames|
      invariant forall k :: 0 <= k < |frames| ==>
        frames[k].player.muted == if Sets(frames[..i], checked, frames[k].player) then checked else old(frames[k].player.muted)
    {
      var frame := frames[i];
      if checked {
        frame.player.AudioSetMute(true);
      } else if !frame.isMuted {
        frame.player.AudioSetMute(false);
      }
      forall k | 0 <= k < |frames|
        ensures Sets(frames[..i + 1], checked, frames[k].player) <==>
                Sets(frames[..i], checked, frames[k].player) || (frame.player == frames[k].player && (checked || !frame.isMuted))
      {
        SetsAppend(frames, i, checked, frames[k].player);
      }
    }
    assert frames[..|frames|] == frames;
    forall k | 0 <= k < |frames| && (checked || !frames[k].isMuted)
      ensures Sets(frames, checked, frames[k].player)
    {
      assert frames[k].player == frames[k].player;
    }
  }

  /** When every frame has a player of its own, unchecking the box leaves
      exactly the frames muted on their own alone. */
  lemma OwnPlayers(frames: seq<VideoFrame>, k: nat)
    requires k < |frames|
    requires forall i, j :: 0 <= i < j < |frames| ==> frames[i].player != frames[j].player
    ensures Sets(frames, false, frames[k].player) <==> !frames[k].isMuted
  {
    if !frames[k].isMuted {
      assert frames[k].player == frames[k].player;
    }
  }

  /** The stream URLs of the frames, in frame order. */
  function Urls(frames: seq<VideoFrame>): seq<string> {
    seq(|frames|, i requires 0 <= i < |frames| => frames[i].stream.url)
  }

  /** The clipboard text: the frames' URLs joined by line feeds, in frame
      order. It is empty for no frames and is the URL itself for one. */
  function ExportText(frames: seq<VideoFrame>): (text: string)
    ensures frames == [] ==> text == ""
    ensures |frames| == 1 ==> text == frames[0].stream.url
  {
    JoinLines(Urls(frames))
  }

  /** When no URL holds a line feed, splitting the clipboard text at its
      line feeds gives back exactly the URLs, in frame order. */
  lemma ExportSplit(frames: seq<VideoFrame>)
    requires frames != []
    requires forall i :: 0 <= i < |frames| ==> '\n' !in frames[i].stream.url
    ensures SplitLines(ExportText(frames)) == Urls(frames)
  {
    SplitJoin(Urls(frames));
  }

  /** The grid widget holding the frames, in the order they were added. */
  class Grid {
    var videoframes: seq<VideoFrame>

    constructor (videoframes: seq<VideoFrame>)
      ensures this.videoframes == videoframes
    {
      this.videoframes := videoframes;
    }
  }

  /** The history file: only its text is modelled. */
  class HistoryFile {
    var content: string

    constructor (content: string)
      ensures this.content == content
    {
      this.content := content;
    }
  }

  /** The lines, each stripped of line feeds, as a set. */
  function StrippedSet(lines: seq<string>): set<string> {
    if lines == [] then {} else StrippedSet(lines[..|lines| - 1]) + {StripNewlines(lines[|lines| - 1])}
  }

  lemma StrippedSetSnoc(lines: seq<string>, line: string)
    ensures StrippedSet(lines + [line]) == StrippedSet(lines) + {StripNewlines(line)}
  {
    assert (lines + [line])[..|lines|] == lines;
  }

  lemma {:induction false} StrippedSetAppend(a: seq<string>, b: seq<string>)
    ensures StrippedSet(a + b) == StrippedSet(a) + StrippedSet(b)
    decreases |b|
  {
    if b == [] {
      assert a + b == a;
    } else {
      var front, last := b[..|b| - 1], b[|b| - 1];
      StrippedSetAppend(a, front);
      assert a + b == (a + front) + [last];
      assert b == front + [last];
      StrippedSetSnoc(a + front, last);
      StrippedSetSnoc(front, last);
    }
  }

  /** The set of URLs a history file's text stands for: the lines of the
      text as text mode delivers it, each stripped of line feeds. */
  function HistoryEntries(content: string): set<string> {
    StrippedSet(ReadLines(TranslateNewlines(content)))
  }

  /** The text of a history file after the URLs were saved to an empty
      file one after another. */
  function SavedContent(urls: seq<string>): string {
    if urls == [] then "" else SavedContent(urls[..|urls| - 1]) + urls[|urls| - 1] + "\n"
  }

  /** Saving a URL that holds no line end after whole lines adds exactly
      that URL to what a load will find. */
  lemma SaveThenLoad(content: string, url: string)
    requires EndsWithNewline(content)
    requires '\n' !in url && '\r' !in url
    ensures HistoryEntries(content + url + "\n") == HistoryEntries(content) + {url}
  {
    var b := url + "\n";
    assert content + b == content + url + "\n";
    assert '\r' !in b by {
      assert forall i :: 0 <= i < |url| ==> b[i] == url[i];
    }
    TranslateAppend(content, b);
    TranslateFree(b);
    var text := TranslateNewlines(content);
    TranslateEndsWithNewline(content);
    ReadLinesAppend(text, b);
    ReadOneLine(url);
    StripLine(url);
    StrippedSetAppend(ReadLines(text), [b]);
    assert StrippedSet([b]) == {url} by {
      assert [b][..0] == [];
    }
  }

  /** Loading a history file written by saves from an empty file gives
      back exactly the saved URLs, duplicates collapsed, when none of them
      holds a line end. */
  lemma {:induction false} LoadSaved(urls: seq<string>)
    requires forall i :: 0 <= i < |urls| ==> '\n' !in urls[i] && '\r' !in urls[i]
    ensures EndsWithNewline(SavedContent(urls))
    ensures HistoryEntries(SavedContent(urls)) == set u | u in urls
  {
    if urls != [] {
      var front, last := urls[..|urls| - 1], urls[|urls| - 1];
      LoadSaved(front);
      SaveThenLoad(SavedContent(front), last);
      assert urls == front + [last];
      assert (set u | u in urls) == (set u | u in front) + {last};
    }
  }

  /** A history file holding "x\nx\ny\n" loads as {"x", "y"}. */
  lemma LoadExample()
    ensures HistoryEntries("x\nx\ny\n") == {"x", "y"}
  {
    var urls := ["x", "x", "y"];
    LoadSaved(urls);
    assert urls[..2][..1][..0] == [];
    assert SavedContent(urls[..2][..1]) == "x\n";
    assert SavedContent(urls[..2]) == "x\nx\n";
    assert SavedContent(urls) == "x\nx\ny\n";
    assert (set u | u in urls) == {"x", "y"};
  }

  /** A history file holding "x\ny\n" loads as {"x", "y"}. */
  lemma LoadTwo()
    ensures HistoryEntries("x\ny\n") == {"x", "y"}
  {
    var urls := ["x", "y"];
    LoadSaved(urls);
    assert urls[..1][..0] == [];
    assert SavedContent(urls[..1]) == "x\n";
    assert SavedContent(urls) == "x\ny\n";
    assert (set u | u in urls) == {"x", "y"};
  }

  /** Text mode ends lines at "\r\n" too: a history file holding
      "x\r\ny\r\n" loads as {"x", "y"}. */
  lemma LoadCrLf()
    ensures HistoryEntries("x\r\ny\r\n") == {"x", "y"}
  {
    TranslateCrLf();
    TranslateFree("x\ny\n");
    LoadTwo();
  }

  /** An empty history file loads as nothing. */
  lemma LoadEmpty()
    ensures HistoryEntries("") == {}
  {
  }

  /** The registry: the grid whose frames it controls, the history file
      and the set of URLs loaded from it. */
  class StreamModel {
    const grid: Grid
    const historyFile: HistoryFile
    var streamHistory: set<string>

    /** A new registry starts with an empty history and loads the history
        file into it, which empties the file. */
    constructor (grid: Grid, historyFile: HistoryFile)
      modifies historyFile
      ensures this.grid == grid && this.historyFile == historyFile
      ensures streamHistory == HistoryEntries(old(historyFile.content))
      ensures historyFile.content == ""
    {
      this.grid := grid;
      this.historyFile := historyFile;
      streamHistory := {};
      new;
      LoadStreamHistory();
    }

    method MuteAllStreams(isMuteChecked: bool)
      modifies Players(grid.videoframes)
      ensures forall k :: 0 <= k < |grid.videoframes| ==>
        grid.videoframes[k].player.muted ==
          if Sets(grid.videoframes, isMuteChecked, grid.videoframes[k].player) then isMuteChecked
          else old(grid.videoframes[k].player.muted)
      ensures isMuteChecked ==> forall k :: 0 <= k < |grid.videoframes| ==> grid.videoframes[k].player.muted
      ensures !isMuteChecked ==> forall k :: 0 <= k < |grid.videoframes| && !grid.videoframes[k].isMuted ==>
        !grid.videoframes[k].player.muted
    {
      MuteAll(grid.videoframes, isMuteChecked);
    }

    /** The clipboard text of the grid's frames, as ExportText gives it:
        empty for no frames, the URL itself for one. */
    function ExportStreamsToClipboard(): (text: string)
      reads grid
      ensures grid.videoframes == [] ==> text == ""
      ensures |grid.videoframes| == 1 ==> text == grid.videoframes[0].stream.url
    {
      ExportText(grid.videoframes)
    }

    /** Appends the URL and a line feed to the history file. */
    method SaveStreamToHistory(url: string)
      modifies historyFile
      ensures historyFile.content == old(historyFile.content) + url + "\n"
    {
      historyFile.content := historyFile.content + url + "\n";
    }

    /** Adds every line of the history file, as text mode reads it and
        stripped of line feeds, to the history, then empties the file. */
    method LoadStreamHistory()
      modifies this`streamHistory, historyFile
      ensures streamHistory == old(streamHistory) + HistoryEntries(old(historyFile.content))
      ensures historyFile.content == ""
    {
      var lines := ReadLines(TranslateNewlines(historyFile.content));
      for i := 0 to |lines|
        invariant streamHistory == old(streamHistory) + StrippedSet(lines[..i])
      {
        streamHistory := streamHistory + {StripNewlines(lines[i])};
        assert lines[..i + 1][..i] == lines[..i];
      }
      assert lines[..|lines|] == lines;
      historyFile.content := "";
    }
  }
}
