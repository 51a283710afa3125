# Desktop stream viewer: a Dafny model of its core

The viewer shows several live network video streams side by side in a grid.
This project models the three pieces of sequential logic at its core:

- **Tile placement** (`grid_layout.dfy`, `main_window.dfy`). The main window
  keeps the cell `(x, y)` where the next tile goes. It starts at `(0, 0)`.
  Adding a stream (after the URL dialog was confirmed) puts a tile at the
  current cell and then advances the cell by one step of a fixed rule. The
  cells come out ring by ring: `(0,0) (0,1) (1,0) (1,1) (0,2) (1,2) (2,0)
  (2,1) (2,2) (0,3) ...`. The model gives every cell a rank (its place in
  that order) and proves three things. Each step raises the rank by exactly
  one. So no cell is handed out twice. And once `k*k` cells were handed out
  they are exactly the `k`-by-`k` square.
- **The stream container** (`stream_container.dfy`). This is the adapter the
  media engine calls back into. `open` and `seek` report success. `read`
  asks the network stream for at most `length` bytes and copies what it got
  to the front of the engine's buffer. `close` closes the network stream.
  The network stream is an object holding the bytes it has not handed out
  yet. One read hands out a chunk of its own choosing, never longer than
  asked. A ghost record of the bytes handed to the engine shows that
  nothing is lost or repeated.
- **The stream registry** (`model.dfy`, with Python's line handling in
  `lines.dfy`). This covers four things:
  - the aggregate mute over the frames on the grid;
  - the clipboard export of their URLs, joined by line feeds;
  - the stream descriptor;
  - the history file. Saving appends `url + "\n"`. Loading reads the file
    in text mode, where "\r\n" and "\r" end a line like "\n". It adds every
    line, stripped of line feeds, to the history set, then empties the file.

The main window has its own copies of the mute loop and of the export. Both
copies share the registry's specification: `MuteAll` for the mute loop, and
`ExportText` for the export.

Choices made in the model:

- The history file is an object holding only its text.
- A media player is an object holding only its mute state.
- The checkbox state is a parameter.
- The URL typed into the dialog is a parameter. The dialog's confirmation
  is a parameter too.

## Model

| member | source | states |
|---|---|---|
| GridLayout.Next | main.py:103-113 | the step rule of the coordinate update; the ring (larger coordinate) never shrinks, grows by at most one per step, and grows exactly when the cell is on the diagonal |
| GridLayout.NextRank | main.py:103-113 | every step moves exactly one place forward in the ring-by-ring allocation order |
| GridLayout.RankOfPosition | main.py:99-113 | the cell held after n steps from (0, 0) is the n-th cell of the allocation order |
| GridLayout.PositionOfRank | main.py:99-113 | every cell of the grid is reached, after exactly as many steps as its rank |
| GridLayout.PositionsDistinct | main.py:99-113 | two different step counts never give the same cell: no cell is produced twice |
| GridLayout.FirstPositions | main.py:99-113 | from (0, 0) the first ten cells are (0,0) (0,1) (1,0) (1,1) (0,2) (1,2) (2,0) (2,1) (2,2) (0,3) |
| GridLayout.FillsSquare | main.py:99-113 | the initial cell plus k*k-1 steps visit pairwise distinct cells whose set is exactly [0,k) x [0,k) |
| MainWindow.TilesFillSquare | main.py:80-85 | tiles placed one per step from (0, 0) never share a cell, and k*k of them fill the k-by-k square |
| MainWindow.ApplicationWindow.SquareFilled | main.py:78-113 | a window all of whose coordinate steps placed a tile fills the k-by-k square once it holds k*k tiles |
| MainWindow.ApplicationWindow.constructor | main.py:33-37 | a new window sits at (0, 0) with no frames and no tiles |
| MainWindow.ApplicationWindow.NewCoordinates | main.py:99-113 | the coordinates move one step by the step rule; the visited cells grow by the new cell and stay the cells of the allocation order |
| MainWindow.ApplicationWindow.SetupVideoframe | main.py:89-94 | a widget for the given stream is put on the grid at the given cell |
| MainWindow.ApplicationWindow.AddNewStream | main.py:78-85 | a cancelled dialog changes nothing; a confirmed one puts a tile with the fixed descriptor at the current cell and then advances exactly once; tiles never share a cell |
| MainWindow.ApplicationWindow.MuteAllStreams | main.py:56-63 | checked: every frame's player is muted; unchecked: players of frames not muted on their own are unmuted and every other player keeps its state |
| MainWindow.ApplicationWindow.ExportStreamsToClipboard | main.py:65-72 | the URLs collected one by one in frame order and joined with line feeds give the registry's export text |
| StreamModels.NewStream | models/model.py:57-59 | the descriptor carries the given URL and the given quality |
| StreamModels.MuteAll | models/model.py:16-22 | checked: every frame's player ends muted; unchecked: every frame not muted on its own ends unmuted, and a player that no such frame uses keeps its prior state |
| StreamModels.OwnPlayers | models/model.py:20-22 | when each frame has its own player, unchecking unmutes a frame's player exactly when that frame is not muted on its own |
| StreamModels.ExportText | models/model.py:24-25 | the frames' URLs joined by line feeds: no frames give the empty text, one frame gives its URL |
| StreamModels.ExportSplit | models/model.py:24-25 | for at least one frame, when no URL holds a line feed, splitting the export text at line feeds gives back exactly the URLs in frame order |
| StreamModels.SaveThenLoad | models/model.py:39-49 | appending a URL that holds no line end ("\n" or "\r") and a line feed after whole lines adds exactly that URL to what a load finds, and keeps everything found before |
| StreamModels.LoadSaved | models/model.py:39-49 | a history file written by saves from empty loads back exactly the set of saved URLs, duplicates collapsed, when no URL holds a line end |
| StreamModels.LoadExample | models/model.py:44-49 | a history file holding "x\nx\ny\n" loads as {"x", "y"} |
| StreamModels.LoadCrLf | models/model.py:44-49 | text mode ends lines at "\r\n" too: a history file holding "x\r\ny\r\n" loads as {"x", "y"} |
| StreamModels.LoadEmpty | models/model.py:48-51 | an emptied history file loads as nothing, so a second load adds nothing |
| StreamModels.StreamModel.constructor | models/model.py:10-14 | a new registry's history is the set of stripped lines of the history file as it was, read in text mode, and the file is left empty |
| StreamModels.StreamModel.MuteAllStreams | models/model.py:16-22 | the aggregate mute applied to the grid's frames, with the effect stated for MuteAll |
| StreamModels.StreamModel.ExportStreamsToClipboard | models/model.py:24-25 | the registry's export text is the export text of the grid's frames: empty for no frames, the URL for one |
| StreamModels.StreamModel.SaveStreamToHistory | models/model.py:39-42 | the file's new text is its old text followed by the URL and a line feed; nothing is overwritten |
| StreamModels.StreamModel.LoadStreamHistory | models/model.py:44-51 | the history becomes the old history plus every stripped line of the file as text mode reads it; the file is left empty; nothing is removed from the history |
| Lines.JoinLinesLength | main.py:72 | joining no parts gives the empty text; otherwise the text starts with the first part and is as long as all parts plus one line feed per pair of neighbours |
| Lines.SplitJoin | main.py:72 | joining line-feed-free pieces with line feeds and splitting at line feeds gives back the pieces in order |
| Lines.JoinSplit | main.py:72 | every text is the join, with line feeds, of its pieces between line feeds |
| Lines.TranslateCrLf | models/model.py:46-47 | text mode delivers "x\r\ny\r\n" as "x\ny\n" |
| Lines.TranslateFree | models/model.py:46-47 | text mode delivers text without a carriage return unchanged |
| Lines.TranslateAppend | models/model.py:46-47 | text that does not end in a carriage return is translated on its own: what follows it does not change how it reads |
| Lines.TranslateEndsWithNewline | models/model.py:46-47 | a text of whole lines is still one after "\r\n" and "\r" become "\n" |
| Lines.ReadLinesWellFormed | models/model.py:47 | reading a file as lines gives no lines exactly when the file is empty; no line is empty and every line but the last ends with a line feed |
| Lines.ReadLinesConcat | models/model.py:47 | reading a file as lines loses and adds nothing: the lines written one after another are the file's text |
| Lines.ReadLinesShape | models/model.py:47 | a text made of whole lines reads as lines that each end with their only line feed |
| Lines.ReadLinesAppend | models/model.py:41-47 | text appended after whole lines leaves those lines as they were and reads as lines of its own |
| Lines.TrimStartSuffix | models/model.py:49 | stripping removes only a run of line feeds at the front, and what is left does not start with one |
| Lines.TrimEndPrefix | models/model.py:49 | stripping removes only a run of line feeds at the back, and what is left does not end with one |
| Lines.StripNewlines | models/model.py:49 | stripping line feeds from both ends never lengthens the text, and what is left neither starts nor ends with a line feed |
| Lines.StripLine | models/model.py:49 | a line saved as a URL plus its line feed strips back to the URL |
| StreamContainers.StreamContainer.constructor | stream_container.py:19-22 | the container holds the opened stream and has handed out nothing yet |
| StreamContainers.StreamContainer.Open | stream_container.py:35-39 | open always returns 0 |
| StreamContainers.StreamContainer.Read | stream_container.py:41-54 | returns the length of the chunk the stream gave (at most `length`); the buffer's front holds exactly that chunk, every byte at or past the count is untouched, the stream gives each byte once in order |
| StreamContainers.LiveStream.Read | stream_container.py:49 | the stream hands out a chunk no longer than asked for, taken from the front of what it holds |
| StreamContainers.StreamContainer.Seek | stream_container.py:56-62 | seek returns 0 for every offset and changes no state |
| StreamContainers.StreamContainer.Close | stream_container.py:64-68 | every call closes the underlying stream once more, with no check for an earlier close, and leaves its data alone |

## Left out

- The Qt user interface is not modelled. That covers loading the window and
  wiring the actions (main.py:39-54), the URL dialog (only its result is a
  parameter) and the clipboard calls (main.py:74-76). It also covers
  `main()` (main.py:115-124) and the registry's forwarding of widget
  operations to the grid (models/model.py:30-37).
- The media engine is not modelled: creating its instance, building media
  from the four callbacks, and casting the container to a raw pointer for
  them (main.py:25, stream_container.py:24-33). These are foreign calls, and
  the callbacks module is not part of this model.
- Stream resolution through the streaming library is not modelled:
  `streamlink.streams`, opening a stream at a quality, `get_stream_options`
  and the static `streams` (stream_container.py:21-22, models/model.py:11,
  27-28, 53-55). This is a network client. The container is built from an
  already opened stream.
- The frame widget (videoframes.py), the history file name (constants.py)
  and the grid widget are not part of this model. A frame is reduced to its
  player, its own mute flag and its stream descriptor.
- Real file handling is not modelled: text encoding, the exception when the
  history file is missing, truncation on opening for writing, and the
  platform's line end on writing (on Windows a saved line feed is written
  as "\r\n"; reading in text mode turns it back into "\n"). The file is
  its text only. Reading does model text mode's universal newlines:
  "\r\n" and "\r" end a line like "\n".
- The media engine calling the callbacks from its own threads is
  concurrency and is not modelled.
- StreamContainers.StreamContainer.Read: requires the engine's buffer to
  hold at least `length` bytes, and the stream never returns more than
  asked. The source writes through a raw pointer and does not check this.
- Seek returns 0 even on streams that cannot seek; close has no guard
  against a second call. The model follows the code. Loading a missing
  history file raises; the model has no missing file.
- StreamModels.LoadSaved: only URLs without "\n" or "\r" are promised to
  load back as themselves. In the source such a URL does not load back as
  itself. Every "\n", "\r" or "\r\n" in the saved text ends a line, so
  "a\rb" loads as "a" and "b". A "\r" just before the saved line feed
  merges with it, so "a\r" loads as "a".
- MainWindow.ApplicationWindow.AddNewStream: assumes the new frame is
  built. In the source, building the frame resolves the stream
  (stream_container.py:21-22) and can raise, for example when the quality is
  not offered. That happens before the widget is added and before the
  coordinates advance, so the cell and the grid stay unchanged.
- The window's `add_new_stream` ignores the URL typed into the dialog. It
  always builds the fixed descriptor `twitch.tv/esl_csgo` at `480p30`
  (main.py:83). The model does the same.
- The window never appends a new frame to its own list of frames
  (main.py:84 drops the frame that `setup_videoframe` returns). The
  window's mute and export act on that list as it is.
