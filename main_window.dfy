/** The viewer's main window: where the next tile goes on the grid, adding a
    tile after the URL dialog, and the window's own copies of the aggregate
    mute and clipboard export. */
module MainWindow {
  import opened GridLayout
  import opened Lines
  import opened StreamModels

  /** A widget the window put on the grid layout: the stream it shows and
      the cell it was placed at. */
  datatype Tile = Tile(stream: StreamDescriptor, pos: Pos)

  /** The cells of the tiles, in the order the tiles were added. */
  function TilePositions(tiles: seq<Tile>): seq<Pos> {
    seq(|tiles|, i requires 0 <= i < |tiles| => tiles[i].pos)
  }

  /** Tiles added one per step of the coordinate state, from (0, 0), fill
      the k-by-k square exactly once there are k*k of them, and no two
      share a cell. */
  lemma TilesFillSquare(tiles: seq<Tile>, k: nat)
    requires |tiles| == k * k
    requires forall i :: 0 <= i < |tiles| ==> tiles[i].pos == Position(i)
    ensures forall i, j :: 0 <= i < j < |tiles| ==> tiles[i].pos != tiles[j].pos
    ensures (set p | p in TilePositions(tiles)) == Square(k)
  {
    FillsSquare(TilePositions(tiles), k);
  }

  /** The current cell of the coordinate state is none of the cells it
      has left behind. */
  lemma CurrentCellFresh(tiles: seq<Tile>, visited: seq<Pos>)
    requires |visited| >= 1
    requires forall i :: 0 <= i < |visited| ==> visited[i] == Position(i)
    requires forall i :: 0 <= i < |tiles| ==> tiles[i].pos in visited[..|visited| - 1]
    ensures forall i :: 0 <= i < |tiles| ==> tiles[i].pos != visited[|visited| - 1]
  {
    forall i | 0 <= i < |tiles|
      ensures tiles[i].pos != visited[|visited| - 1]
    {
      var j :| 0 <= j < |visited| - 1 && visited[..|visited| - 1][j] == tiles[i].pos;
      PositionsDistinct(j, |visited| - 1);
    }
  }

  /** A tile put on the current cell, followed by one more step of the
      coordinate state, keeps every tile on a cell left behind and keeps
      the tiles' cells distinct. */
  lemma PlaceTile(tiles: seq<Tile>, visited: seq<Pos>, t: Tile, next: Pos)
    requires |visited| >= 1 && t.pos == visited[|visited| - 1]
    requires forall i :: 0 <= i < |visited| ==> visited[i] == Position(i)
    requires forall i :: 0 <= i < |tiles| ==> tiles[i].pos in visited[..|visited| - 1]
    requires forall i, j :: 0 <= i < j < |tiles| ==> tiles[i].pos != tiles[j].pos
    ensures forall i :: 0 <= i < |tiles + [t]| ==> (tiles + [t])[i].pos in (visited + [next])[..|visited|]
    ensures forall i, j :: 0 <= i < j < |tiles + [t]| ==> (tiles + [t])[i].pos != (tiles + [t])[j].pos
  {
    CurrentCellFresh(tiles, visited);
    assert (visited + [next])[..|visited|] == visited;
    forall i | 0 <= i < |tiles|
      ensures tiles[i].pos in visited
    {
      assert tiles[i].pos in visited[..|visited| - 1];
    }
  }

  /** A tile put on the current cell, followed by one more step, keeps the
      tiles on the visited cells in order. */
  lemma PlaceTileInOrder(tiles: seq<Tile>, visited: seq<Pos>, t: Tile, next: Pos)
    requires |visited| >= 1 && t.pos == visited[|visited| - 1]
    ensures TilePositions(tiles) == visited[..|visited| - 1] ==>
      TilePositions(tiles + [t]) == (visited + [next])[..|visited|]
  {
    if TilePositions(tiles) == visited[..|visited| - 1] {
      assert TilePositions(tiles + [t]) == TilePositions(tiles) + [t.pos];
      assert visited == visited[..|visited| - 1] + [t.pos];
      assert (visited + [next])[..|visited|] == visited;
    }
  }

  class ApplicationWindow {
    /** The cell the next tile goes to. */
    var x: nat
    var y: nat
    /** The frames the window's mute and export act on. */
    var videoframes: seq<VideoFrame>
    /** The widgets on the grid layout, in the order they were added. */
    var tiles: seq<Tile>
    /** Every cell the coordinate state has held, the current one last. */
    ghost var visited: seq<Pos>

    /** The coordinate state has taken |visited| - 1 steps from (0, 0) and
        sits at the last cell visited. */
    ghost predicate AllocatorValid()
      reads this
    {
      |visited| >= 1 && visited[|visited| - 1] == Pos(x, y) &&
      forall i :: 0 <= i < |visited| ==> visited[i] == Position(i)
    }

    /** Every tile sits on a cell the coordinate state has left behind, and
        no two tiles share a cell. */
    ghost predicate Valid()
      reads this
    {
      AllocatorValid() &&
      (forall i :: 0 <= i < |tiles| ==> tiles[i].pos in visited[..|visited| - 1]) &&
      (forall i, j :: 0 <= i < j < |tiles| ==> tiles[i].pos != tiles[j].pos)
    }

    /** Every step of the coordinate state so far placed a tile: the tiles
        sit on the visited cells in order. */
    ghost predicate Synced()
      reads this
    {
      |visited| >= 1 && TilePositions(tiles) == visited[..|visited| - 1]
    }

    /** A window whose every coordinate step placed a tile, holding k*k
        tiles, fills the k-by-k square. */
    lemma SquareFilled(k: nat)
      requires Valid() && Synced() && |tiles| == k * k
      ensures (set p | p in TilePositions(tiles)) == Square(k)
    {
      assert forall i :: 0 <= i < |tiles| ==> TilePositions(tiles)[i] == tiles[i].pos;
      TilesFillSquare(tiles, k);
    }

    /** A new window has no tiles and its coordinates at (0, 0). */
    constructor ()
      ensures Valid() && Synced()
      ensures x == 0 && y == 0 && visited == [Pos(0, 0)]
      ensures videoframes == [] && tiles == []
    {
      x, y := 0, 0;
      videoframes := [];
      tiles := [];
      visited := [Pos(0, 0)];
    }

    /** Advances the coordinates one step by the step rule. */
    method NewCoordinates()
      requires AllocatorValid()
      modifies this`x, this`y, this`visited
      ensures AllocatorValid()
      ensures Pos(x, y) == Next(old(Pos(x, y)))
      ensures visited == old(visited) + [Pos(x, y)]
    {
      if y == x {
        y := y + 1;
        x := 0;
      } else if y == x + 1 {
        x := y;
        y := 0;
      } else {
        if x < y {
          x := x + 1;
        } else {
          y := y + 1;
        }
      }
      visited := visited + [Pos(x, y)];
    }

    /** Puts a new widget for the stream on the grid at the given cell. */
    method SetupVideoframe(streamInfo: StreamDescriptor, gridXpos: nat, gridYpos: nat)
      modifies this`tiles
      ensures tiles == old(tiles) + [Tile(streamInfo, Pos(gridXpos, gridYpos))]
    {
      tiles := tiles + [Tile(streamInfo, Pos(gridXpos, gridYpos))];
    }

    /** After the URL dialog: when it was cancelled nothing changes;
        otherwise a tile goes to the current cell and the coordinates advance
        one step. The tile always gets the same fixed stream, whatever URL
        was entered. */
    method AddNewStream(streamUrl: string, status: bool)
      requires Valid()
      modifies this`x, this`y, this`visited, this`tiles
      ensures Valid()
      ensures !status ==> x == old(x) && y == old(y) && visited == old(visited) && tiles == old(tiles)
      ensures status ==> tiles == old(tiles) + [Tile(NewStream("twitch.tv/esl_csgo", "480p30"), old(Pos(x, y)))]
      ensures status ==> Pos(x, y) == Next(old(Pos(x, y))) && visited == old(visited) + [Pos(x, y)]
      ensures old(Synced()) ==> Synced()
    {
      if !status {
        return;
      }
      ghost var here, before := Pos(x, y), visited;
      var newStream := NewStream("twitch.tv/esl_csgo", "480p30");
      SetupVideoframe(newStream, x, y);
      NewCoordinates();
      PlaceTile(old(tiles), before, Tile(newStream, here), Pos(x, y));
      PlaceTileInOrder(old(tiles), before, Tile(newStream, here), Pos(x, y));
    }

    /** The window's copy of the aggregate mute control, with the checkbox
        state passed in. */
    method MuteAllStreams(checked: bool)
      modifies Players(videoframes)
      ensures forall k :: 0 <= k < |videoframes| ==>
        videoframes[k].player.muted ==
          if Sets(videoframes, checked, videoframes[k].player) then checked
          else old(videoframes[k].player.muted)
      ensures checked ==> forall k :: 0 <= k < |videoframes| ==> videoframes[k].player.muted
      ensures !checked ==> forall k :: 0 <= k < |videoframes| && !videoframes[k].isMuted ==>
        !videoframes[k].player.muted
    {
      MuteAll(videoframes, checked);
    }

    /** The window's copy of the clipboard export: collects the URLs one by
        one, then joins them with line feeds. */
    method ExportStreamsToClipboard() returns (text: string)
      ensures text == ExportText(videoframes)
    {
      var streamUrls: seq<string> := [];
      for i := 0 to |videoframes|
        invariant |streamUrls| == i
        invariant forall j :: 0 <= j < i ==> streamUrls[j] == videoframes[j].stream.url
      {
        streamUrls := streamUrls + [videoframes[i].stream.url];
      }
      assert streamUrls == Urls(videoframes);
      text := JoinLines(streamUrls);
    }
  }
}
