/** One-hot encoding of windows, next characters and labels into zeroed
    boolean tensors (`get_x_bool_array`, `get_y_bool_array`,
    `get_emoji_bool_array`, the deprecated `get_x_y_bool_arrays`), and the
    debugging decoder `x_y_bool_array_to_sentence`.

    Each encoder fills a fresh all-false tensor cell by cell in nested
    loops. A symbol missing from the index raises `KeyError`; a position or
    index outside the tensor raises `IndexError`; the first such fault in
    loop order is the exception the caller sees. */
module OneHot {
  import opened Errors
  import Alphabet

  // ---------------------------------------------------------------- faults

  /** Writing character `s[pos]` into a slab of `width` positions by
      `depth` symbols: the dictionary lookup comes first, then numpy's
      bounds check of the position and of the looked-up index. */
  function CellFault(s: string, pos: nat, width: nat, depth: nat, index: map<char, nat>): Option<PyError>
    requires pos < |s|
  {
    if s[pos] !in index then Some(KeyError([s[pos]]))
    else if pos >= width || index[s[pos]] >= depth then Some(IndexError)
    else None
  }

  function CellFaults(s: string, width: nat, depth: nat, index: map<char, nat>): seq<Option<PyError>>
  {
    seq(|s|, pos requires 0 <= pos < |s| => CellFault(s, pos, width, depth, index))
  }

  /** The exception raised while encoding one window, if any. */
  function RowFault(s: string, width: nat, depth: nat, index: map<char, nat>): Option<PyError>
  {
    FirstFault(CellFaults(s, width, depth, index))
  }

  function RowFaults(sentences: seq<string>, width: nat, depth: nat, index: map<char, nat>): seq<Option<PyError>>
  {
    seq(|sentences|, i requires 0 <= i < |sentences| => RowFault(sentences[i], width, depth, index))
  }

  /** The exception `get_x_bool_array` raises: `sentence[0]` of an empty
      list, then the first faulty cell in row-major order. The tensor's
      width is the length of the first window. */
  function WindowsFault(sentences: seq<string>, depth: nat, index: map<char, nat>): Option<PyError>
  {
    if |sentences| == 0 then Some(IndexError)
    else FirstFault(RowFaults(sentences, |sentences[0]|, depth, index))
  }

  /** Looking up symbol `x` (shown as `key` in the exception) and writing
      at its index in a row of `depth` cells. */
  function LookupFault<T(==)>(x: T, key: string, index: map<T, nat>, depth: nat): Option<PyError>
  {
    if x !in index then Some(KeyError(key))
    else if index[x] >= depth then Some(IndexError)
    else None
  }

  /** How a character or a label is shown in a `KeyError`. */
  function CharKey(c: char): string { [c] }
  function LabelKey(e: string): string { e }

  function SymbolFaults<T(==)>(xs: seq<T>, keys: T -> string, index: map<T, nat>): seq<Option<PyError>>
  {
    seq(|xs|, i requires 0 <= i < |xs| => LookupFault(xs[i], keys(xs[i]), index, |index|))
  }

  /** Cell `(pos, c)` of the encoding of window `s` is set. */
  predicate Hot(s: string, pos: nat, c: nat, index: map<char, nat>)
  {
    pos < |s| && s[pos] in index && index[s[pos]] == c
  }

  /** Cell `c` of the encoding of symbol `x` is set. */
  predicate SymbolHot<T(==)>(x: T, c: nat, index: map<T, nat>)
  {
    x in index && index[x] == c
  }

  /** A window encodes without fault exactly when every character is
      indexed, fits the slab's width, and has an index below its depth. */
  lemma RowFaultFree(s: string, width: nat, depth: nat, index: map<char, nat>)
    ensures RowFault(s, width, depth, index).None? <==>
              forall pos :: 0 <= pos < |s| ==> s[pos] in index && pos < width && index[s[pos]] < depth
  {
    var cells := CellFaults(s, width, depth, index);
    if RowFault(s, width, depth, index).None? {
      forall pos | 0 <= pos < |s|
        ensures s[pos] in index && pos < width && index[s[pos]] < depth
      {
        assert cells[pos].None?;
      }
    }
  }

  /** With a proper alphabet index and windows no wider than the first,
      the first character (in loop order) that the index lacks is exactly
      the `KeyError` reported: a missing symbol never defaults. */
  lemma KeyErrorOnFirstMissing(sentences: seq<string>, chars: seq<char>, index: map<char, nat>, i: nat, pos: nat)
    requires Alphabet.IsIndexOf(index, chars)
    requires i < |sentences| && forall j :: 0 <= j < |sentences| ==> |sentences[j]| <= |sentences[0]|
    requires pos < |sentences[i]| && sentences[i][pos] !in index
    requires forall j, q :: 0 <= j < i && 0 <= q < |sentences[j]| ==> sentences[j][q] in index
    requires forall q :: 0 <= q < pos ==> sentences[i][q] in index
    ensures WindowsFault(sentences, |chars|, index) == Some(KeyError([sentences[i][pos]]))
  {
    var width := |sentences[0]|;
    var rows := RowFaults(sentences, width, |chars|, index);
    forall j | 0 <= j < i
      ensures rows[j].None?
    {
      RowFaultFree(sentences[j], width, |chars|, index);
    }
    var cells := CellFaults(sentences[i], width, |chars|, index);
    FirstFaultAt(cells, pos);
    FirstFaultAt(rows, i);
  }

  // -------------------------------------------------------------- encoders

  /** One pass of the inner loop of `get_x_bool_array`: encode window `s`
      into row `i` of `t`, which is still all false, stopping at the first
      fault. Other rows are untouched. */
  method FillWindow(t: array3<bool>, i: nat, s: string, index: map<char, nat>) returns (fault: Option<PyError>)
    requires i < t.Length0
    requires forall p, c :: 0 <= p < t.Length1 && 0 <= c < t.Length2 ==> !t[i, p, c]
    modifies t
    ensures fault == RowFault(s, t.Length1, t.Length2, index)
    ensures forall j, p, c :: 0 <= j < t.Length0 && 0 <= p < t.Length1 && 0 <= c < t.Length2 && j != i ==>
              t[j, p, c] == old(t[j, p, c])
    ensures fault.None? ==>
              forall p, c :: 0 <= p < t.Length1 && 0 <= c < t.Length2 ==> t[i, p, c] == Hot(s, p, c, index)
  {
    var cells := CellFaults(s, t.Length1, t.Length2, index);
    var pos := 0;
    while pos < |s|
      invariant 0 <= pos <= |s|
      invariant forall q :: 0 <= q < pos ==> cells[q].None?
      invariant forall j, p, c :: 0 <= j < t.Length0 && 0 <= p < t.Length1 && 0 <= c < t.Length2 && j != i ==>
                  t[j, p, c] == old(t[j, p, c])
      invariant forall p, c :: 0 <= p < t.Length1 && 0 <= c < t.Length2 ==>
                  t[i, p, c] == (p < pos && Hot(s, p, c, index))
    {
      var ch := s[pos];
      if ch !in index {
        FirstFaultAt(cells, pos);
        return Some(KeyError([ch]));
      }
      var k := index[ch];
      if pos >= t.Length1 || k >= t.Length2 {
        FirstFaultAt(cells, pos);
        return Some(IndexError);
      }
      t[i, pos, k] := true;
      pos := pos + 1;
    }
    fault := None;
  }

  /** `get_x_bool_array`: a `(n, |sentences[0]|, |chars|)` tensor whose
      cell `(i, pos, c)` is set exactly when character `pos` of window `i`
      has index `c`, or the first fault. */
  method EncodeWindows(sentences: seq<string>, chars: seq<char>, index: map<char, nat>)
    returns (r: Result<array3<bool>>)
    ensures r.Err? <==> WindowsFault(sentences, |chars|, index).Some?
    ensures r.Err? ==> r.error == WindowsFault(sentences, |chars|, index).value
    ensures r.Ok? ==> fresh(r.value)
    ensures r.Ok? ==> r.value.Length0 == |sentences| && r.value.Length1 == |sentences[0]| && r.value.Length2 == |chars|
    ensures r.Ok? ==> forall i, p, c :: 0 <= i < r.value.Length0 && 0 <= p < r.value.Length1 && 0 <= c < r.value.Length2 ==>
              r.value[i, p, c] == Hot(sentences[i], p, c, index)
  {
    if |sentences| == 0 {
      return Err(IndexError);
    }
    var width := |sentences[0]|;
    var rows := RowFaults(sentences, width, |chars|, index);
    var t := new bool[|sentences|, width, |chars|]((i, p, c) => false);
    var i := 0;
    while i < |sentences|
      invariant 0 <= i <= |sentences|
      invariant forall j :: 0 <= j < i ==> rows[j].None?
      invariant forall j, p, c :: 0 <= j < t.Length0 && 0 <= p < t.Length1 && 0 <= c < t.Length2 ==>
                  t[j, p, c] == (j < i && Hot(sentences[j], p, c, index))
    {
      var fault := FillWindow(t, i, sentences[i], index);
      if fault.Some? {
        FirstFaultAt(rows, i);
        return Err(fault.value);
      }
      i := i + 1;
    }
    r := Ok(t);
  }

  /** The loop shared by `get_y_bool_array` and `get_emoji_bool_array`: a
      `(n, |index|)` tensor with one cell set per symbol, or the first fault. */
  method EncodeSymbols<T(==)>(xs: seq<T>, keys: T -> string, index: map<T, nat>)
    returns (r: Result<array2<bool>>)
    ensures r.Err? <==> FirstFault(SymbolFaults(xs, keys, index)).Some?
    ensures r.Err? ==> r.error == FirstFault(SymbolFaults(xs, keys, index)).value
    ensures r.Ok? ==> fresh(r.value) && r.value.Length0 == |xs| && r.value.Length1 == |index|
    ensures r.Ok? ==> forall i, c :: 0 <= i < r.value.Length0 && 0 <= c < r.value.Length1 ==>
              r.value[i, c] == SymbolHot(xs[i], c, index)
  {
    var faults := SymbolFaults(xs, keys, index);
    var t := new bool[|xs|, |index|]((i, c) => false);
    var i := 0;
    while i < |xs|
      invariant 0 <= i <= |xs|
      invariant forall j :: 0 <= j < i ==> faults[j].None?
      invariant forall j, c :: 0 <= j < t.Length0 && 0 <= c < t.Length1 ==>
                  t[j, c] == (j < i && SymbolHot(xs[j], c, index))
    {
      if xs[i] !in index {
        FirstFaultAt(faults, i);
        return Err(KeyError(keys(xs[i])));
      }
      var k := index[xs[i]];
      if k >= t.Length1 {
        FirstFaultAt(faults, i);
        return Err(IndexError);
      }
      t[i, k] := true;
      i := i + 1;
    }
    r := Ok(t);
  }

  /** `get_y_bool_array`. */
  method EncodeNextChars(nextChars: seq<char>, index: map<char, nat>) returns (r: Result<array2<bool>>)
    ensures r.Err? <==> FirstFault(SymbolFaults(nextChars, CharKey, index)).Some?
    ensures r.Err? ==> r.error == FirstFault(SymbolFaults(nextChars, CharKey, index)).value
    ensures r.Ok? ==> fresh(r.value) && r.value.Length0 == |nextChars| && r.value.Length1 == |index|
    ensures r.Ok? ==> forall i, c :: 0 <= i < r.value.Length0 && 0 <= c < r.value.Length1 ==>
              r.value[i, c] == SymbolHot(nextChars[i], c, index)
  {
    r := EncodeSymbols(nextChars, CharKey, index);
  }

  /** `get_emoji_bool_array`. */
  method EncodeLabels(emoji: seq<string>, emojiIndex: map<string, nat>) returns (r: Result<array2<bool>>)
    ensures r.Err? <==> FirstFault(SymbolFaults(emoji, LabelKey, emojiIndex)).Some?
    ensures r.Err? ==> r.error == FirstFault(SymbolFaults(emoji, LabelKey, emojiIndex)).value
    ensures r.Ok? ==> fresh(r.value) && r.value.Length0 == |emoji| && r.value.Length1 == |emojiIndex|
    ensures r.Ok? ==> forall i, c :: 0 <= i < r.value.Length0 && 0 <= c < r.value.Length1 ==>
              r.value[i, c] == SymbolHot(emoji[i], c, emojiIndex)
  {
    r := EncodeSymbols(emoji, LabelKey, emojiIndex);
  }

  /** Under a proper index every symbol row of a fault-free encoding has
      exactly one cell set, at the symbol's index. */
  lemma SymbolRowIsOneHot<T(!new)>(xs: seq<T>, keys: T -> string, symbols: seq<T>, index: map<T, nat>, i: nat)
    requires Alphabet.IsIndexOf(index, symbols)
    requires FirstFault(SymbolFaults(xs, keys, index)).None?
    requires i < |xs|
    ensures xs[i] in index && index[xs[i]] < |index|
    ensures forall c :: 0 <= c < |index| ==> (SymbolHot(xs[i], c, index) <==> c == index[xs[i]])
  {
    var faults := SymbolFaults(xs, keys, index);
    assert faults[i] == LookupFault(xs[i], keys(xs[i]), index, |index|);
  }

  /** The fault order of the deprecated encoder: row `i`'s window, then
      its next character (`next_chars[i]` itself may be out of range). */
  function PairFault(sentences: seq<string>, nextChars: seq<char>, width: nat, depth: nat, index: map<char, nat>, i: nat)
    : Option<PyError>
    requires i < |sentences|
  {
    var row := RowFault(sentences[i], width, depth, index);
    if row.Some? then row
    else if i >= |nextChars| then Some(IndexError)
    else LookupFault(nextChars[i], [nextChars[i]], index, |index|)
  }

  function PairFaults(sentences: seq<string>, nextChars: seq<char>, width: nat, depth: nat, index: map<char, nat>)
    : seq<Option<PyError>>
  {
    seq(|sentences|, i requires 0 <= i < |sentences| => PairFault(sentences, nextChars, width, depth, index, i))
  }

  /** The exception the deprecated encoder raises with alphabet `chars`
      and index `index`, if any. */
  function PairsFault(sentences: seq<string>, nextChars: seq<char>, depth: nat, index: map<char, nat>): Option<PyError>
  {
    if |sentences| == 0 then Some(IndexError)
    else FirstFault(PairFaults(sentences, nextChars, |sentences[0]|, depth, index))
  }

  /** The second half of one pass of the deprecated encoder: set the cell
      of `next_chars[i]` in row `i` of `y`, which is still all false. */
  method FillNextChar(y: array2<bool>, i: nat, nextChars: seq<char>, index: map<char, nat>) returns (fault: Option<PyError>)
    requires i < y.Length0 && y.Length1 == |index|
    requires forall c :: 0 <= c < y.Length1 ==> !y[i, c]
    modifies y
    ensures fault == (if i >= |nextChars| then Some(IndexError)
                      else LookupFault(nextChars[i], [nextChars[i]], index, |index|))
    ensures forall j, c :: 0 <= j < y.Length0 && 0 <= c < y.Length1 && j != i ==> y[j, c] == old(y[j, c])
    ensures fault.None? ==> forall c :: 0 <= c < y.Length1 ==> y[i, c] == SymbolHot(nextChars[i], c, index)
  {
    if i >= |nextChars| {
      return Some(IndexError);
    }
    var ch := nextChars[i];
    if ch !in index {
      return Some(KeyError([ch]));
    }
    var k := index[ch];
    if k >= y.Length1 {
      return Some(IndexError);
    }
    y[i, k] := true;
    fault := None;
  }

  /** The loop of `get_x_y_bool_arrays` for a given alphabet and index. */
  method EncodePairsWith(sentences: seq<string>, nextChars: seq<char>, chars: seq<char>, index: map<char, nat>)
    returns (r: Result<(array3<bool>, array2<bool>)>)
    ensures r.Err? <==> PairsFault(sentences, nextChars, |chars|, index).Some?
    ensures r.Err? ==> r.error == PairsFault(sentences, nextChars, |chars|, index).value
    ensures r.Ok? ==> |sentences| > 0 && |nextChars| >= |sentences|
    ensures r.Ok? ==>
              && r.value.0.Length0 == |sentences| && r.value.0.Length1 == |sentences[0]|
              && r.value.0.Length2 == |chars|
              && r.value.1.Length0 == |sentences| && r.value.1.Length1 == |index|
    ensures r.Ok? ==>
              forall i, p, c :: 0 <= i < r.value.0.Length0 && 0 <= p < r.value.0.Length1 && 0 <= c < r.value.0.Length2 ==>
                r.value.0[i, p, c] == Hot(sentences[i], p, c, index)
    ensures r.Ok? ==>
              forall i, c :: 0 <= i < r.value.1.Length0 && 0 <= c < r.value.1.Length1 ==>
                r.value.1[i, c] == SymbolHot(nextChars[i], c, index)
  {
    if |sentences| == 0 {
      return Err(IndexError);
    }
    var width := |sentences[0]|;
    var faults := PairFaults(sentences, nextChars, width, |chars|, index);
    var x := new bool[|sentences|, width, |chars|]((i, p, c) => false);
    var y := new bool[|sentences|, |index|]((i, c) => false);
    var i := 0;
    while i < |sentences|
      invariant 0 <= i <= |sentences|
      invariant forall j :: 0 <= j < i ==> faults[j].None?
      invariant i <= |nextChars|
      invariant forall j, p, c :: 0 <= j < x.Length0 && 0 <= p < x.Length1 && 0 <= c < x.Length2 ==>
                  x[j, p, c] == (j < i && Hot(sentences[j], p, c, index))
      invariant forall j, c :: 0 <= j < y.Length0 && 0 <= c < y.Length1 ==>
                  y[j, c] == (j < i && SymbolHot(nextChars[j], c, index))
    {
      var fault := FillWindow(x, i, sentences[i], index);
      if fault.Some? {
        FirstFaultAt(faults, i);
        return Err(fault.value);
      }
      fault := FillNextChar(y, i, nextChars, index);
      if fault.Some? {
        FirstFaultAt(faults, i);
        return Err(fault.value);
      }
      i := i + 1;
    }
    r := Ok((x, y));
  }

  /** `get_x_y_bool_arrays`: both tensors over the universal alphabet in
      one loop, window `i` then next character `i`. */
  method EncodePairs(sentences: seq<string>, nextChars: seq<char>)
    returns (r: Result<(array3<bool>, array2<bool>)>)
    ensures var (chars, index) := Alphabet.UniversalCharsList();
            r.Err? <==> PairsFault(sentences, nextChars, |chars|, index).Some?
    ensures var (chars, index) := Alphabet.UniversalCharsList();
            r.Err? ==> r.error == PairsFault(sentences, nextChars, |chars|, index).value
    ensures var (chars, index) := Alphabet.UniversalCharsList();
            r.Ok? ==>
              && |sentences| > 0 && |nextChars| >= |sentences|
              && r.value.0.Length0 == |sentences| && r.value.0.Length1 == |sentences[0]|
              && r.value.0.Length2 == |chars|
              && r.value.1.Length0 == |sentences| && r.value.1.Length1 == |index|
              && (forall i, p, c :: 0 <= i < r.value.0.Length0 && 0 <= p < r.value.0.Length1 && 0 <= c < r.value.0.Length2 ==>
                    r.value.0[i, p, c] == Hot(sentences[i], p, c, index))
              && (forall i, c :: 0 <= i < r.value.1.Length0 && 0 <= c < r.value.1.Length1 ==>
                    r.value.1[i, c] == SymbolHot(nextChars[i], c, index))
  {
    var (chars, index) := Alphabet.UniversalCharsList();
    r := EncodePairsWith(sentences, nextChars, chars, index);
  }

  // --------------------------------------------------------------- decoder

  /** The first set cell of a row, or `|row|` if none is set. */
  function FirstTrue(row: seq<bool>): (k: nat)
    ensures k <= |row|
    ensures forall j :: 0 <= j < k ==> !row[j]
    ensures k < |row| ==> row[k]
  {
    if |row| == 0 then 0
    else if row[0] then 0
    else 1 + FirstTrue(row[1..])
  }

  /** `np.argmax` of a 0/1 row: the first maximal position, which is the
      first set cell, or 0 when none is set. */
  function ArgMax(row: seq<bool>): (k: nat)
    requires |row| > 0
    ensures k < |row|
    ensures (exists j :: 0 <= j < |row| && row[j]) ==> row[k] && forall j :: 0 <= j < k ==> !row[j]
    ensures (forall j :: 0 <= j < |row| ==> !row[j]) ==> k == 0
  {
    var k := FirstTrue(row);
    if k < |row| then k else 0
  }

  /** `bool_array_to_char`: numpy refuses the argmax of an empty row, and
      indexing `chars` past its end raises. */
  function DecodeChar(row: seq<bool>, chars: seq<char>): Result<char>
  {
    if |row| == 0 then Err(ValueError)
    else if ArgMax(row) < |chars| then Ok(chars[ArgMax(row)])
    else Err(IndexError)
  }

  /** `decode_line`: decode the rows in order, stopping at the first fault.
      Defined from the back, as the loop extends its prefix. */
  function DecodeRows(rows: seq<seq<bool>>, chars: seq<char>): (r: Result<string>)
    ensures r.Ok? ==> |r.value| == |rows|
  {
    if |rows| == 0 then Ok("")
    else
      var front := DecodeRows(rows[..|rows| - 1], chars);
      if front.Err? then front
      else
        var last := DecodeChar(rows[|rows| - 1], chars);
        if last.Err? then Err(last.error) else Ok(front.value + [last.value])
  }

  /** Once a prefix of the rows fails, decoding all of them fails the same way. */
  lemma {:induction false} DecodeRowsErrPersists(rows: seq<seq<bool>>, k: nat, chars: seq<char>)
    requires k <= |rows| && DecodeRows(rows[..k], chars).Err?
    ensures DecodeRows(rows, chars) == DecodeRows(rows[..k], chars)
  {
    if k < |rows| {
      var front := rows[..|rows| - 1];
      assert front[..k] == rows[..k];
      DecodeRowsErrPersists(front, k, chars);
    } else {
      assert rows[..k] == rows;
    }
  }

  function Separator(separator: bool): string
  {
    if separator then ":" else ""
  }

  /** The rows of example `i` of an input tensor. */
  function Plane(x: array3<bool>, i: nat): seq<seq<bool>>
    requires i < x.Length0
    reads x
  {
    seq(x.Length1, p requires 0 <= p < x.Length1 reads x =>
      seq(x.Length2, c requires 0 <= c < x.Length2 reads x => x[i, p, c]))
  }

  /** Row `i` of a target tensor. */
  function Row(y: array2<bool>, i: nat): seq<bool>
    requires i < y.Length0
    reads y
  {
    seq(y.Length1, c requires 0 <= c < y.Length1 reads y => y[i, c])
  }

  /** What `x_y_bool_array_to_sentence` returns: the decoded window, the
      optional `:` and the decoded next character, or the first fault
      (`text_x[position]`, `text_y[position]`, the window, the target). */
  function DecodeExample(x: array3<bool>, y: array2<bool>, chars: seq<char>, position: nat, separator: bool): Result<string>
    reads x, y
  {
    if position >= x.Length0 || position >= y.Length0 then Err(IndexError)
    else
      var line := DecodeRows(Plane(x, position), chars);
      if line.Err? then line
      else
        var next := DecodeChar(Row(y, position), chars);
        if next.Err? then Err(next.error)
        else Ok(line.value + Separator(separator) + [next.value])
  }

  /** `decode_line`, as its loop appends one decoded character per row. */
  method DecodeLine(x: array3<bool>, position: nat, chars: seq<char>) returns (r: Result<string>)
    requires position < x.Length0
    ensures r == DecodeRows(Plane(x, position), chars)
  {
    var rows := Plane(x, position);
    var line := "";
    var p := 0;
    while p < x.Length1
      invariant 0 <= p <= x.Length1
      invariant DecodeRows(rows[..p], chars) == Ok(line)
    {
      assert rows[..p + 1][..p] == rows[..p];
      var c := DecodeChar(rows[p], chars);
      if c.Err? {
        DecodeRowsErrPersists(rows, p + 1, chars);
        return Err(c.error);
      }
      line := line + [c.value];
      p := p + 1;
    }
    assert rows[..p] == rows;
    r := Ok(line);
  }

  /** `x_y_bool_array_to_sentence`. */
  method DecodeTensors(x: array3<bool>, y: array2<bool>, chars: seq<char>, position: nat, separator: bool)
    returns (r: Result<string>)
    ensures r == DecodeExample(x, y, chars, position, separator)
  {
    if position >= x.Length0 || position >= y.Length0 {
      return Err(IndexError);
    }
    var line := DecodeLine(x, position, chars);
    if line.Err? {
      return line;
    }
    var next := DecodeChar(Row(y, position), chars);
    if next.Err? {
      return Err(next.error);
    }
    r := Ok(line.value + Separator(separator) + [next.value]);
  }

  // ------------------------------------------------------------ round trip

  /** The one-hot row of index `k` among `n` symbols. */
  function OneHotRow(k: nat, n: nat): (row: seq<bool>)
    ensures |row| == n
    ensures forall c :: 0 <= c < n ==> (row[c] <==> c == k)
  {
    seq(n, c => c == k)
  }

  /** Decoding a one-hot row recovers the symbol it was set for. */
  lemma DecodeOneHot(k: nat, chars: seq<char>)
    requires k < |chars|
    ensures DecodeChar(OneHotRow(k, |chars|), chars) == Ok(chars[k])
  {
    var row := OneHotRow(k, |chars|);
    assert row[k];
  }

  /** The encoded rows of window `s`. */
  function EncodedRows(s: string, chars: seq<char>, index: map<char, nat>): (rows: seq<seq<bool>>)
    requires forall pos :: 0 <= pos < |s| ==> s[pos] in index
    ensures |rows| == |s|
  {
    seq(|s|, pos requires 0 <= pos < |s| => OneHotRow(index[s[pos]], |chars|))
  }

  /** Decoding the encoded rows of a window, with the same alphabet,
      gives back the window. */
  lemma {:induction false} DecodeEncodedRows(s: string, chars: seq<char>, index: map<char, nat>)
    requires Alphabet.IsIndexOf(index, chars)
    requires forall pos :: 0 <= pos < |s| ==> s[pos] in index
    ensures DecodeRows(EncodedRows(s, chars, index), chars) == Ok(s)
  {
    if |s| > 0 {
      var front := s[..|s| - 1];
      var rows := EncodedRows(s, chars, index);
      DecodeEncodedRows(front, chars, index);
      assert rows[..|rows| - 1] == EncodedRows(front, chars, index);
      var last := s[|s| - 1];
      DecodeOneHot(index[last], chars);
      assert s == front + [last];
    }
  }

  /** Encoding windows and next characters with one alphabet and decoding
      example `position` with the same alphabet returns the window, the
      optional separator and the next character. */
  method EncodeThenDecode(sentences: seq<string>, nextChars: seq<char>, chars: seq<char>, index: map<char, nat>,
                          position: nat, separator: bool)
    returns (r: Result<string>)
    requires Alphabet.IsIndexOf(index, chars)
    requires position < |sentences| == |nextChars|
    requires forall i :: 0 <= i < |sentences| ==> |sentences[i]| == |sentences[0]|
    requires forall i, pos :: 0 <= i < |sentences| && 0 <= pos < |sentences[i]| ==> sentences[i][pos] in index
    requires forall i :: 0 <= i < |nextChars| ==> nextChars[i] in index
    ensures r == Ok(sentences[position] + Separator(separator) + [nextChars[position]])
  {
    var width := |sentences[0]|;
    forall i | 0 <= i < |sentences|
      ensures RowFaults(sentences, width, |chars|, index)[i].None?
    {
      RowFaultFree(sentences[i], width, |chars|, index);
    }
    var faults := SymbolFaults(nextChars, CharKey, index);
    forall i | 0 <= i < |nextChars|
      ensures faults[i].None?
    {
      assert index[nextChars[i]] < |index|;
    }
    var x := EncodeWindows(sentences, chars, index);
    var y := EncodeNextChars(nextChars, index);
    var s := sentences[position];
    forall p | 0 <= p < |s|
      ensures Plane(x.value, position)[p] == EncodedRows(s, chars, index)[p]
    {
      assert forall c :: 0 <= c < |chars| ==> x.value[position, p, c] == Hot(s, p, c, index);
    }
    assert Plane(x.value, position) == EncodedRows(s, chars, index);
    DecodeEncodedRows(s, chars, index);
    var c := nextChars[position];
    assert Row(y.value, position) == OneHotRow(index[c], |chars|);
    DecodeOneHot(index[c], chars);
    r := DecodeTensors(x.value, y.value, chars, position, separator);
  }
}
