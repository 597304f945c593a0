/** Phrase context around a grid position: the trimmed non-empty words before
    and after it along its row and along its column, the cells an edit affects,
    and the `___` prompt a context renders as. */
module PhraseUtils {
  import opened Text
  import opened GridTypes

  /** Each word trimmed, blank ones dropped, order kept (the `word?.trim()` then
      `if (word)` of both context loops). */
  function NonBlankWords(words: seq<string>): (r: seq<string>)
    ensures |r| <= |words|
  {
    if |words| == 0 then []
    else
      var t := Trim(words[0]);
      (if t != "" then [t] else []) + NonBlankWords(words[1..])
  }

  lemma {:induction false} NonBlankWordsAreTrimmed(words: seq<string>)
    ensures forall w :: w in NonBlankWords(words) ==> w != "" && IsTrimmed(w)
  {
    if |words| > 0 {
      NonBlankWordsAreTrimmed(words[1..]);
    }
  }

  lemma {:induction false} NonBlankWordsAppend(a: seq<string>, b: seq<string>)
    ensures NonBlankWords(a + b) == NonBlankWords(a) + NonBlankWords(b)
  {
    if |a| == 0 {
      assert a + b == b;
    } else {
      var t := Trim(a[0]);
      var head: seq<string> := if t != "" then [t] else [];
      assert (a + b)[0] == a[0];
      assert (a + b)[1..] == a[1..] + b;
      assert NonBlankWords(a + b) == head + NonBlankWords(a[1..] + b);
      NonBlankWordsAppend(a[1..], b);
      assert NonBlankWords(a) == head + NonBlankWords(a[1..]);
    }
  }

  /** A word is in the context exactly when it is the trimmed, non-empty text of one of the inputs. */
  lemma {:induction false} NonBlankWordsMembers(words: seq<string>, w: string)
    ensures w in NonBlankWords(words) <==> w != "" && exists i :: 0 <= i < |words| && Trim(words[i]) == w
  {
    if |words| > 0 {
      NonBlankWordsMembers(words[1..], w);
      if exists i :: 0 <= i < |words[1..]| && Trim(words[1..][i]) == w {
        var i :| 0 <= i < |words[1..]| && Trim(words[1..][i]) == w;
        assert Trim(words[i + 1]) == w;
      }
      if exists i :: 0 <= i < |words| && Trim(words[i]) == w {
        var i :| 0 <= i < |words| && Trim(words[i]) == w;
        if i > 0 { assert Trim(words[1..][i - 1]) == w; }
      }
    }
  }

  /** The words of `row[lo..hi]`. */
  function RowWords(row: seq<Cell>, lo: nat, hi: nat): (r: seq<string>)
    requires lo <= hi <= |row|
    ensures |r| == hi - lo && forall i :: 0 <= i < hi - lo ==> r[i] == row[lo + i].word
  {
    seq(hi - lo, i requires 0 <= i < hi - lo => row[lo + i].word)
  }

  /** The words of column `col` in rows `lo..hi`; a row without that column
      contributes `""`, which the context then drops as `undefined` is dropped. */
  function ColumnWords(cells: Grid, col: nat, lo: nat, hi: nat): (r: seq<string>)
    requires lo <= hi <= |cells|
    ensures |r| == hi - lo && forall i :: 0 <= i < hi - lo ==> r[i] == WordAt(cells, Position(lo + i, col))
  {
    seq(hi - lo, i requires 0 <= i < hi - lo => WordAt(cells, Position(lo + i, col)))
  }

  function Min(a: nat, b: nat): nat {
    if a <= b then a else b
  }

  /** `getRowContext`: a missing row gives the empty context. */
  function RowContext(cells: Grid, pos: Position): (r: PhraseContext)
    ensures pos.row >= |cells| ==> r == PhraseContext([], [])
    ensures pos.row < |cells| ==>
      var row := cells[pos.row];
      && r.before == NonBlankWords(RowWords(row, 0, Min(pos.col, |row|)))
      && r.after == NonBlankWords(RowWords(row, Min(pos.col + 1, |row|), |row|))
  {
    if pos.row >= |cells| then PhraseContext([], [])
    else
      var row := cells[pos.row];
      PhraseContext(
        NonBlankWords(RowWords(row, 0, Min(pos.col, |row|))),
        NonBlankWords(RowWords(row, Min(pos.col + 1, |row|), |row|)))
  }

  /** `getColumnContext`: the same construction down column `pos.col`. */
  function ColumnContext(cells: Grid, pos: Position): (r: PhraseContext)
    ensures |r.before| <= pos.row
    ensures pos.row >= |cells| ==> r.after == []
    ensures pos.row < |cells| ==> |r.before| + |r.after| < |cells|
    ensures r.before == NonBlankWords(ColumnWords(cells, pos.col, 0, Min(pos.row, |cells|)))
    ensures r.after == NonBlankWords(ColumnWords(cells, pos.col, Min(pos.row + 1, |cells|), |cells|))
  {
    PhraseContext(
      NonBlankWords(ColumnWords(cells, pos.col, 0, Min(pos.row, |cells|))),
      NonBlankWords(ColumnWords(cells, pos.col, Min(pos.row + 1, |cells|), |cells|)))
  }

  /** Every word of either context is non-empty and has no white space at its ends. */
  lemma ContextWordsTrimmed(cells: Grid, pos: Position)
    ensures forall w :: w in RowContext(cells, pos).before + RowContext(cells, pos).after ==> w != "" && IsTrimmed(w)
    ensures forall w :: w in ColumnContext(cells, pos).before + ColumnContext(cells, pos).after ==> w != "" && IsTrimmed(w)
  {
    RowContextTrimmed(cells, pos);
    ColumnContextTrimmed(cells, pos);
  }

  lemma RowContextTrimmed(cells: Grid, pos: Position)
    ensures forall w :: w in RowContext(cells, pos).before + RowContext(cells, pos).after ==> w != "" && IsTrimmed(w)
  {
    if pos.row < |cells| {
      var row := cells[pos.row];
      NonBlankWordsAreTrimmed(RowWords(row, 0, Min(pos.col, |row|)));
      NonBlankWordsAreTrimmed(RowWords(row, Min(pos.col + 1, |row|), |row|));
    }
  }

  lemma ColumnContextTrimmed(cells: Grid, pos: Position)
    ensures forall w :: w in ColumnContext(cells, pos).before + ColumnContext(cells, pos).after ==> w != "" && IsTrimmed(w)
  {
    NonBlankWordsAreTrimmed(ColumnWords(cells, pos.col, 0, Min(pos.row, |cells|)));
    NonBlankWordsAreTrimmed(ColumnWords(cells, pos.col, Min(pos.row + 1, |cells|), |cells|));
  }

  lemma RowSliceMembers(row: seq<Cell>, lo: nat, hi: nat, w: string)
    requires lo <= hi <= |row|
    ensures w in NonBlankWords(RowWords(row, lo, hi)) <==>
      w != "" && exists c :: lo <= c < hi && Trim(row[c].word) == w
  {
    var ws := RowWords(row, lo, hi);
    NonBlankWordsMembers(ws, w);
    if exists c :: lo <= c < hi && Trim(row[c].word) == w {
      var c :| lo <= c < hi && Trim(row[c].word) == w;
      assert ws[c - lo] == row[c].word;
    }
  }

  lemma ColumnSliceMembers(cells: Grid, col: nat, lo: nat, hi: nat, w: string)
    requires lo <= hi <= |cells|
    ensures w in NonBlankWords(ColumnWords(cells, col, lo, hi)) <==>
      w != "" && exists r :: lo <= r < hi && Trim(WordAt(cells, Position(r, col))) == w
  {
    var ws := ColumnWords(cells, col, lo, hi);
    NonBlankWordsMembers(ws, w);
    if exists r :: lo <= r < hi && Trim(WordAt(cells, Position(r, col))) == w {
      var r :| lo <= r < hi && Trim(WordAt(cells, Position(r, col))) == w;
      assert ws[r - lo] == WordAt(cells, Position(r, col));
    }
  }

  /** A word is in the row context's `before` exactly when it is the trimmed,
      non-empty word of a cell left of `pos` in its row, and in `after` exactly
      when it is that of a cell to the right; the target never contributes. */
  lemma RowContextMembers(cells: Grid, pos: Position, w: string)
    requires pos.row < |cells|
    ensures w in RowContext(cells, pos).before <==>
      w != "" && exists c :: 0 <= c < pos.col && c < |cells[pos.row]| && Trim(cells[pos.row][c].word) == w
    ensures w in RowContext(cells, pos).after <==>
      w != "" && exists c :: pos.col < c < |cells[pos.row]| && Trim(cells[pos.row][c].word) == w
  {
    var row := cells[pos.row];
    RowSliceMembers(row, 0, Min(pos.col, |row|), w);
    RowSliceMembers(row, Min(pos.col + 1, |row|), |row|, w);
  }

  /** The same characterisation down the column; rows too short to have the
      column contribute nothing. */
  lemma ColumnContextMembers(cells: Grid, pos: Position, w: string)
    ensures w in ColumnContext(cells, pos).before <==>
      w != "" && exists r :: 0 <= r < pos.row && r < |cells| && Trim(WordAt(cells, Position(r, pos.col))) == w
    ensures w in ColumnContext(cells, pos).after <==>
      w != "" && exists r :: pos.row < r < |cells| && Trim(WordAt(cells, Position(r, pos.col))) == w
  {
    ColumnAboveMembers(cells, pos, w);
    ColumnBelowMembers(cells, pos, w);
  }

  lemma ColumnAboveMembers(cells: Grid, pos: Position, w: string)
    ensures w in ColumnContext(cells, pos).before <==>
      w != "" && exists r :: 0 <= r < pos.row && r < |cells| && Trim(WordAt(cells, Position(r, pos.col))) == w
  {
    var k := Min(pos.row, |cells|);
    ColumnSliceMembers(cells, pos.col, 0, k, w);
    if exists r :: 0 <= r < pos.row && r < |cells| && Trim(WordAt(cells, Position(r, pos.col))) == w {
      var r :| 0 <= r < pos.row && r < |cells| && Trim(WordAt(cells, Position(r, pos.col))) == w;
      assert 0 <= r < k;
    }
  }

  lemma ColumnBelowMembers(cells: Grid, pos: Position, w: string)
    ensures w in ColumnContext(cells, pos).after <==>
      w != "" && exists r :: pos.row < r < |cells| && Trim(WordAt(cells, Position(r, pos.col))) == w
  {
    var k := Min(pos.row + 1, |cells|);
    ColumnSliceMembers(cells, pos.col, k, |cells|, w);
    if exists r :: pos.row < r < |cells| && Trim(WordAt(cells, Position(r, pos.col))) == w {
      var r :| pos.row < r < |cells| && Trim(WordAt(cells, Position(r, pos.col))) == w;
      assert k <= r < |cells|;
    }
  }

  /** Rewriting the target cell changes neither of its contexts. */
  lemma ContextIgnoresTarget(cells: Grid, pos: Position, x: Cell)
    requires InRange(cells, pos)
    ensures var edited := cells[pos.row := cells[pos.row][pos.col := x]];
      RowContext(edited, pos) == RowContext(cells, pos) && ColumnContext(edited, pos) == ColumnContext(cells, pos)
  {
    var edited := cells[pos.row := cells[pos.row][pos.col := x]];
    var row, erow := cells[pos.row], edited[pos.row];
    assert RowWords(erow, 0, pos.col) == RowWords(row, 0, pos.col);
    assert RowWords(erow, pos.col + 1, |row|) == RowWords(row, pos.col + 1, |row|);
    assert ColumnWords(edited, pos.col, 0, pos.row) == ColumnWords(cells, pos.col, 0, pos.row);
    assert ColumnWords(edited, pos.col, pos.row + 1, |cells|) == ColumnWords(cells, pos.col, pos.row + 1, |cells|);
  }

  /** The transpose of a grid whose rows all have `cols` cells. */
  function Transpose(cells: Grid, cols: nat): (t: Grid)
    requires forall r :: 0 <= r < |cells| ==> |cells[r]| == cols
    ensures |t| == cols && forall c :: 0 <= c < cols ==> |t[c]| == |cells|
    ensures forall c, r :: 0 <= c < cols && 0 <= r < |cells| ==> t[c][r] == cells[r][c]
  {
    seq(cols, c requires 0 <= c < cols => seq(|cells|, r requires 0 <= r < |cells| => cells[r][c]))
  }

  /** Column context is row context of the transposed grid: the two extractors
      are one construction along two axes. */
  lemma ColumnContextIsTransposedRowContext(cells: Grid, cols: nat, pos: Position)
    requires forall r :: 0 <= r < |cells| ==> |cells[r]| == cols
    requires pos.col < cols
    ensures ColumnContext(cells, pos) == RowContext(Transpose(cells, cols), Position(pos.col, pos.row))
  {
    var t := Transpose(cells, cols);
    var trow := t[pos.col];
    var k := Min(pos.row, |cells|);
    assert RowWords(trow, 0, k) == ColumnWords(cells, pos.col, 0, k);
    var k2 := Min(pos.row + 1, |cells|);
    assert RowWords(trow, k2, |trow|) == ColumnWords(cells, pos.col, k2, |cells|);
  }

  /** `0..n-1` without `skip`, ascending. */
  function IndicesExcept(n: nat, skip: nat): (r: seq<nat>)
    ensures |r| == if skip < n then n - 1 else n
    ensures forall i :: 0 <= i < |r| ==> r[i] < n && r[i] != skip
    ensures forall i, j :: 0 <= i < j < |r| ==> r[i] < r[j]
    ensures forall k :: 0 <= k < n && k != skip ==> k in r
  {
    if n == 0 then [] else IndicesExcept(n - 1, skip) + (if n - 1 != skip then [n - 1] else [])
  }

  /** `getAffectedCells`: the rest of the row, then the rest of the column, then `pos`. */
  function AffectedCells(pos: Position, rows: nat, cols: nat): (r: seq<Position>)
    ensures |r| > 0 && r[|r| - 1] == pos
    ensures forall i :: 0 <= i < |r| ==> r[i].row == pos.row || r[i].col == pos.col
  {
    var cs := IndicesExcept(cols, pos.col);
    var rs := IndicesExcept(rows, pos.row);
    seq(|cs|, i requires 0 <= i < |cs| => Position(pos.row, cs[i]))
      + seq(|rs|, i requires 0 <= i < |rs| => Position(rs[i], pos.col))
      + [pos]
  }

  /** The affected cells are `pos`, last, and every other cell of its row and of
      its column, each once: `(cols-1) + (rows-1) + 1` positions for an in-range `pos`. */
  lemma AffectedCellsSpec(pos: Position, rows: nat, cols: nat)
    ensures var r := AffectedCells(pos, rows, cols);
      && |r| == (if pos.col < cols then cols - 1 else cols) + (if pos.row < rows then rows - 1 else rows) + 1
      && r[|r| - 1] == pos
      && (forall i, j :: 0 <= i < j < |r| ==> r[i] != r[j])
  {
    var cs := IndicesExcept(cols, pos.col);
    var rs := IndicesExcept(rows, pos.row);
    var inRow := seq(|cs|, i requires 0 <= i < |cs| => Position(pos.row, cs[i]));
    var inCol := seq(|rs|, i requires 0 <= i < |rs| => Position(rs[i], pos.col));
    var r := AffectedCells(pos, rows, cols);
    assert r == inRow + inCol + [pos];
    forall i, j | 0 <= i < j < |r| ensures r[i] != r[j] {
      if j < |inRow| {
        assert r[i].col == cs[i] < cs[j] == r[j].col;
      } else if i < |inRow| {
        assert r[i].col != pos.col;
        assert r[j].col == pos.col;
      } else if j < |inRow| + |inCol| {
        assert r[i].row == rs[i - |inRow|] < rs[j - |inRow|] == r[j].row;
      } else {
        assert r[j] == pos;
        assert r[i].row != pos.row;
      }
    }
  }

  /** Every other cell of `pos`'s row and of its column inside the `rows` x
      `cols` grid is affected, and so is `pos`. */
  lemma AffectedCellsComplete(pos: Position, rows: nat, cols: nat, q: Position)
    requires q == pos || (q.row == pos.row && q.col < cols) || (q.col == pos.col && q.row < rows)
    ensures q in AffectedCells(pos, rows, cols)
  {
    var cs := IndicesExcept(cols, pos.col);
    var rs := IndicesExcept(rows, pos.row);
    var inRow := seq(|cs|, i requires 0 <= i < |cs| => Position(pos.row, cs[i]));
    var inCol := seq(|rs|, i requires 0 <= i < |rs| => Position(rs[i], pos.col));
    var r := AffectedCells(pos, rows, cols);
    assert r == inRow + inCol + [pos];
    if q == pos {
      assert r[|r| - 1] == q;
    } else if q.row == pos.row {
      assert q.col in cs;
      var i :| 0 <= i < |cs| && cs[i] == q.col;
      assert r[i] == q;
    } else {
      assert q.row in rs;
      var i :| 0 <= i < |rs| && rs[i] == q.row;
      assert r[|inRow| + i] == q;
    }
  }

  /** Only `pos` and cells sharing its row or column are affected. */
  lemma AffectedCellsSound(pos: Position, rows: nat, cols: nat, q: Position)
    requires q in AffectedCells(pos, rows, cols)
    ensures q == pos || (q.row == pos.row && q.col < cols) || (q.col == pos.col && q.row < rows)
  {
    var cs := IndicesExcept(cols, pos.col);
    var rs := IndicesExcept(rows, pos.row);
    var inRow := seq(|cs|, i requires 0 <= i < |cs| => Position(pos.row, cs[i]));
    var inCol := seq(|rs|, i requires 0 <= i < |rs| => Position(rs[i], pos.col));
    var r := AffectedCells(pos, rows, cols);
    assert r == inRow + inCol + [pos];
    var k :| 0 <= k < |r| && r[k] == q;
    if k < |inRow| {
      assert q == Position(pos.row, cs[k]);
    } else if k < |inRow| + |inCol| {
      assert q == Position(rs[k - |inRow|], pos.col);
    }
  }

    /** `contextToPrompt`: the `before` words, the placeholder and the `after`
      words, joined by single spaces, each segment present only when non-empty,
      so no blank segment appears. */
  function ContextToPrompt(context: PhraseContext): (r: string)
    ensures r ==
      (if |context.before| > 0 then Join(context.before, " ") + " " else "")
      + "___"
      + (if |context.after| > 0 then " " + Join(context.after, " ") else "")
  {
    var parts := (if |context.before| > 0 then [Join(context.before, " ")] else [])
      + ["___"]
      + (if |context.after| > 0 then [Join(context.after, " ")] else []);
    var b, a := Join(context.before, " "), Join(context.after, " ");
    JoinOfThree(b, "___", a, " ");
    JoinOfTwo(b, "___", " ");
    JoinOfTwo("___", a, " ");
    assert |context.before| > 0 && |context.after| > 0 ==> parts == [b, "___", a];
    assert |context.before| > 0 && |context.after| == 0 ==> parts == [b, "___"];
    assert |context.before| == 0 && |context.after| > 0 ==> parts == ["___", a];
    assert |context.before| == 0 && |context.after| == 0 ==> parts == ["___"];
    Join(parts, " ")
  }

  lemma JoinOfTwo(a: string, b: string, sep: string)
    ensures Join([a, b], sep) == a + sep + b
  {
    assert [a, b][1..] == [b];
  }

  lemma JoinOfThree(a: string, b: string, c: string, sep: string)
    ensures Join([a, b, c], sep) == a + sep + (b + sep + c)
  {
    assert [a, b, c][1..] == [b, c];
    JoinOfTwo(b, c, sep);
  }

  /** "sun" before and "rises" after render as "sun ___ rises". */
  lemma SunRisesPrompt()
    ensures ContextToPrompt(PhraseContext(["sun"], ["rises"])) == "sun ___ rises"
  {
  }
}
