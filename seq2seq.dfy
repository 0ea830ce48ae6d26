/** The sequence-to-sequence loader: the same text filter as the window
    loader, and a generator that one-hot encodes whole posts into `x` and
    a copy shifted one position to the left into `y`. */
module Seq2Seq {
  import opened Errors
  import opened Sampling
  import Alphabet
  import TextFilter
  import BatchGenerator
  import OneHot

  /** `CHARACTERS_NO_NEWLINE`, the same string as the window loader's alphabet. */
  const CHARACTERS_NO_NEWLINE: string := Alphabet.CHARACTERS

  /** `CHARACTERS`: the alphabet with a leading newline. No code of the
      loader uses it. */
  const CHARACTERS: string := "\n" + CHARACTERS_NO_NEWLINE

  // ------------------------------------------------------------ filter_text

  /** `filter_text(text, chars)`: every post loses its `@` words and every
      character outside `chars`. */
  function FilterText(texts: seq<string>, chars: string := CHARACTERS_NO_NEWLINE): (r: seq<string>)
    ensures |r| == |texts|
    ensures forall k, c :: 0 <= k < |r| && c in r[k] ==> c in chars
    ensures forall k :: 0 <= k < |r| ==> TextFilter.IsSubsequence(r[k], TextFilter.FilterHandles(texts[k]))
  {
    FilterTextKeepsOrder(texts, chars);
    TextFilter.FilterAll(texts, chars)
  }

  lemma FilterTextKeepsOrder(texts: seq<string>, chars: string)
    ensures forall k :: 0 <= k < |texts| ==>
              TextFilter.IsSubsequence(TextFilter.FilterAll(texts, chars)[k], TextFilter.FilterHandles(texts[k]))
  {
    forall k | 0 <= k < |texts|
      ensures TextFilter.IsSubsequence(TextFilter.FilterAll(texts, chars)[k], TextFilter.FilterHandles(texts[k]))
    {
      TextFilter.FilterCharsIsSubsequence(TextFilter.FilterHandles(texts[k]), chars);
    }
  }

  /** With its default alphabet the filter removes every newline, and it
      agrees with the window loader's `filter_text_for_handles`. */
  lemma FilterTextDefault(texts: seq<string>)
    ensures FilterText(texts) == TextFilter.FilterTextForHandles(texts)
    ensures forall k :: 0 <= k < |texts| ==> '\n' !in FilterText(texts)[k]
  {
    Alphabet.NewlineNotInCharacters();
  }

  /** The seq2seq alphabet is the window alphabet with a newline in front,
      and the newline is not a key of the universal index the generator uses. */
  lemma NewlineOnlyInSeq2SeqAlphabet()
    ensures '\n' in CHARACTERS && '\n' !in CHARACTERS_NO_NEWLINE
    ensures '\n' !in Alphabet.UniversalCharsList().1
  {
    Alphabet.NewlineNotInCharacters();
    Alphabet.NewlineNotUniversal();
    assert CHARACTERS[0] == '\n';
  }

  // ------------------------------------------------- what one pull encodes

  /** Writing position `i` of a text: the index lookup comes first, so an
      unknown character raises KeyError even where the position is out of
      bounds; then a position at or past `sequenceLength` raises IndexError. */
  function CharFault(text: string, i: nat, sequenceLength: nat, index: map<char, nat>): Option<PyError>
    requires i < |text|
  {
    if text[i] !in index then Some(KeyError([text[i]]))
    else if i >= sequenceLength then Some(IndexError)
    else None
  }

  function TextFaults(text: string, sequenceLength: nat, index: map<char, nat>): (r: seq<Option<PyError>>)
    ensures |r| == |text|
  {
    seq(|text|, i requires 0 <= i < |text| => CharFault(text, i, sequenceLength, index))
  }

  /** The exception raised while writing one text, if any: a text encodes
      exactly when it fits and every character is in the index. */
  function TextFault(text: string, sequenceLength: nat, index: map<char, nat>): (r: Option<PyError>)
    ensures r.None? <==> |text| <= sequenceLength && forall c :: c in text ==> c in index
  {
    TextFaultFree(text, sequenceLength, index);
    FirstFault(TextFaults(text, sequenceLength, index))
  }

  lemma TextFaultFree(text: string, sequenceLength: nat, index: map<char, nat>)
    ensures FirstFault(TextFaults(text, sequenceLength, index)).None? <==>
              |text| <= sequenceLength && forall c :: c in text ==> c in index
  {
    var faults := TextFaults(text, sequenceLength, index);
    if FirstFault(faults).None? {
      forall i | 0 <= i < |text|
        ensures text[i] in index && i < sequenceLength
      {
        assert faults[i].None?;
      }
    }
    if |text| > sequenceLength {
      assert faults[sequenceLength].Some?;
    }
  }

  /** A text that follows the loader's comment and ends in a newline cannot
      be encoded: the newline is missing from the universal index. */
  lemma NewlineTerminatedTextFails(text: string, sequenceLength: nat)
    requires |text| > 0 && text[|text| - 1] == '\n'
    ensures TextFault(text, sequenceLength, Alphabet.UniversalCharsList().1).Some?
  {
    Alphabet.NewlineNotUniversal();
    assert '\n' in text;
  }

  /** The first fault of a text is the fault of its first bad position. */
  lemma TextFaultAt(text: string, sequenceLength: nat, index: map<char, nat>, k: nat)
    requires k < |text| && CharFault(text, k, sequenceLength, index).Some?
    requires forall j :: 0 <= j < k ==> CharFault(text, j, sequenceLength, index).None?
    ensures TextFault(text, sequenceLength, index) == CharFault(text, k, sequenceLength, index)
  {
    FirstFaultAt(TextFaults(text, sequenceLength, index), k);
  }

  /** The outcome of one `next()`: a yielded `(x, y)` or `(x, y, emoji)`,
      the end of iteration, or an exception. */
  datatype Pull =
    | Yield(inputs: array3<bool>, targets: array3<bool>, labels: Option<array2<bool>>)
    | Stop
    | Raise(error: PyError)

  /** Writing one text into row `m` of `x` and, one position earlier, of `y`. */
  method FillText(x: array3<bool>, y: array3<bool>, m: nat, text: string, index: map<char, nat>)
    returns (fault: Option<PyError>)
    requires x != y
    requires m < x.Length0 && m < y.Length0
    requires x.Length1 > 0 && y.Length1 == x.Length1 - 1
    requires forall ch :: ch in index ==> index[ch] < x.Length2 && index[ch] < y.Length2
    modifies x, y
    ensures fault == TextFault(text, x.Length1, index)
    ensures fault.None? ==>
              forall n, i, c :: 0 <= n < x.Length0 && 0 <= i < x.Length1 && 0 <= c < x.Length2 ==>
                x[n, i, c] == (old(x[n, i, c]) || (n == m && OneHot.Hot(text, i, c, index)))
    ensures fault.None? ==>
              forall n, i, c :: 0 <= n < y.Length0 && 0 <= i < y.Length1 && 0 <= c < y.Length2 ==>
                y[n, i, c] == (old(y[n, i, c]) || (n == m && OneHot.Hot(text, i + 1, c, index)))
  {
    var i := 0;
    while i < |text|
      invariant 0 <= i <= |text|
      invariant forall j :: 0 <= j < i ==> CharFault(text, j, x.Length1, index).None?
      invariant forall n, j, c :: 0 <= n < x.Length0 && 0 <= j < x.Length1 && 0 <= c < x.Length2 ==>
                  x[n, j, c] == (old(x[n, j, c]) || (n == m && j < i && OneHot.Hot(text, j, c, index)))
      invariant forall n, j, c :: 0 <= n < y.Length0 && 0 <= j < y.Length1 && 0 <= c < y.Length2 ==>
                  y[n, j, c] == (old(y[n, j, c]) || (n == m && j + 1 < i && OneHot.Hot(text, j + 1, c, index)))
    {
      var ch := text[i];
      if ch !in index {
        TextFaultAt(text, x.Length1, index, i);
        return Some(KeyError([ch]));
      }
      var c := index[ch];
      if i >= x.Length1 {
        TextFaultAt(text, x.Length1, index, i);
        return Some(IndexError);
      }
      x[m, i, c] := true;
      if i > 0 {
        y[m, i - 1, c] := true;
      }
      i := i + 1;
    }
    assert forall j :: 0 <= j < |text| ==> TextFaults(text, x.Length1, index)[j].None?;
    fault := None;
  }

  // ------------------------------------------------------------ xy_generator

  /** `xy_generator(tweets, batch_size, sequence_length, emoji_indices)`.
      `batch_num` is set to 0 and never advanced, so every pull encodes
      rows `0 .. batchSize - 1` again, into the same buffers, which are
      never cleared. An empty `emojiIndices` stands for `None` and `{}`. */
  class ShiftedBatchGenerator {
    const rows: seq<Tweet>
    const batchSize: nat
    const sequenceLength: nat
    const emojiIndices: map<string, nat>
    const chars: seq<char>
    const index: map<char, nat>

    var stage: BatchGenerator.Stage
    var xArr: array3<bool>
    var yArr: array3<bool>
    var emojiArr: array2<bool>

    predicate Labelled()
    {
      |emojiIndices| > 0
    }

    /** The division and the buffer shapes pass: `y` has
        `sequenceLength - 1` positions, which numpy refuses when negative. */
    predicate Ready()
    {
      batchSize > 0 && sequenceLength > 0
    }

    /** `n_batches`. */
    function NBatches(): nat
      requires batchSize > 0
    {
      |rows| / batchSize
    }

    /** This pull runs the loop body. */
    predicate Pulling(s: BatchGenerator.Stage)
    {
      s.Running? || (s.Fresh? && Ready() && NBatches() > 0)
    }

    /** Row `m` of the batch raises: its text, then (with labels) its emoji. */
    function RowFault(t: Tweet): Option<PyError>
    {
      var tf := TextFault(t.text, sequenceLength, index);
      if tf.Some? || !Labelled() then tf else OneHot.LookupFault(t.emoji, OneHot.LabelKey(t.emoji), emojiIndices, |emojiIndices|)
    }

    /** The exception one pass of the loop raises, if any. */
    function BatchFault(): Option<PyError>
      requires batchSize <= |rows|
    {
      FirstFault(seq(batchSize, m requires 0 <= m < batchSize => RowFault(rows[m])))
    }

    /** The buffers have the shapes the generator allocates. */
    predicate Shaped(x: array3<bool>, y: array3<bool>, e: array2<bool>)
    {
      && Ready() && NBatches() > 0 && batchSize <= |rows|
      && x.Length0 == batchSize && x.Length1 == sequenceLength && x.Length2 == |chars|
      && y.Length0 == batchSize && y.Length1 == sequenceLength - 1 && y.Length2 == |chars|
      && x != y
      && (Labelled() ==> e.Length0 == batchSize && e.Length1 == |emojiIndices|)
    }

    /** The buffers hold exactly the encoding of rows `0 .. batchSize - 1`. */
    ghost predicate Encoded(x: array3<bool>, y: array3<bool>, e: array2<bool>)
      requires Shaped(x, y, e)
      reads x, y, e
    {
      && (forall m, i, c :: 0 <= m < x.Length0 && 0 <= i < x.Length1 && 0 <= c < x.Length2 ==>
            x[m, i, c] == OneHot.Hot(rows[m].text, i, c, index))
      && (forall m, i, c :: 0 <= m < y.Length0 && 0 <= i < y.Length1 && 0 <= c < y.Length2 ==>
            y[m, i, c] == OneHot.Hot(rows[m].text, i + 1, c, index))
      && (Labelled() ==>
            forall m, c :: 0 <= m < e.Length0 && 0 <= c < e.Length1 ==>
              e[m, c] == OneHot.SymbolHot(rows[m].emoji, c, emojiIndices))
    }

    /** Freshly allocated zero buffers. */
    ghost predicate Zeroed(x: array3<bool>, y: array3<bool>, e: array2<bool>)
      reads x, y, e
    {
      && (forall m, i, c :: 0 <= m < x.Length0 && 0 <= i < x.Length1 && 0 <= c < x.Length2 ==> !x[m, i, c])
      && (forall m, i, c :: 0 <= m < y.Length0 && 0 <= i < y.Length1 && 0 <= c < y.Length2 ==> !y[m, i, c])
      && (Labelled() ==> forall m, c :: 0 <= m < e.Length0 && 0 <= c < e.Length1 ==> !e[m, c])
    }

    /** While the generator runs, the first batch encodes without an
        exception and the buffers hold its encoding. */
    ghost predicate Valid()
      reads this, xArr, yArr, emojiArr
    {
      && Alphabet.IsIndexOf(index, chars)
      && (stage.Running? ==>
            Shaped(xArr, yArr, emojiArr) && BatchFault().None? && Encoded(xArr, yArr, emojiArr))
    }

    /** Calling `xy_generator(...)`: nothing runs yet. */
    constructor (rows: seq<Tweet>, batchSize: nat, sequenceLength: nat, emojiIndices: map<string, nat>)
      ensures Valid() && stage.Fresh?
      ensures Alphabet.IsUniversalAlphabet(chars, index)
      ensures this.rows == rows && this.batchSize == batchSize && this.sequenceLength == sequenceLength
      ensures this.emojiIndices == emojiIndices
    {
      var universalChars, universalIndex := Alphabet.UniversalAlphabet();
      this.rows := rows;
      this.batchSize := batchSize;
      this.sequenceLength := sequenceLength;
      this.emojiIndices := emojiIndices;
      chars, index := universalChars, universalIndex;
      stage := BatchGenerator.Fresh;
      xArr := new bool[0, 0, 0];
      yArr := new bool[0, 0, 0];
      emojiArr := new bool[0, 0];
    }

    /** `next()` on the generator. While it runs, the buffers always hold
        the encoding of the first batch. */
    method Next() returns (p: Pull)
      requires Valid()
      modifies this, xArr, yArr, emojiArr
      ensures Valid()
      ensures old(stage).Finished? ==> p == Stop && stage.Finished?
      ensures old(stage).Fresh? && batchSize == 0 ==> p == Raise(ZeroDivisionError) && stage.Finished?
      ensures old(stage).Fresh? && batchSize > 0 && sequenceLength == 0 ==> p == Raise(ValueError) && stage.Finished?
      ensures old(stage).Fresh? && Ready() && |rows| < batchSize ==> p == Stop && stage.Finished?
      ensures old(stage).Fresh? && Ready() && NBatches() == 0 ==> p == Stop && stage.Finished?
      ensures Pulling(old(stage)) ==> batchSize <= |rows| && (p.Yield? <==> BatchFault().None?)
      ensures Pulling(old(stage)) && p.Raise? ==> p.error == BatchFault().value && stage.Finished?
      ensures Pulling(old(stage)) && p.Yield? ==>
                stage.Running? && p == Yield(xArr, yArr, if Labelled() then Some(emojiArr) else None)
      ensures old(stage).Running? ==> xArr == old(xArr) && yArr == old(yArr) && emojiArr == old(emojiArr)
      ensures p.Yield? ==> Encoded(xArr, yArr, emojiArr)
      ensures old(stage).Running? && p.Yield? ==>
                && (forall m, i, c :: 0 <= m < xArr.Length0 && 0 <= i < xArr.Length1 && 0 <= c < xArr.Length2 ==>
                      xArr[m, i, c] == old(xArr[m, i, c]))
                && (forall m, i, c :: 0 <= m < yArr.Length0 && 0 <= i < yArr.Length1 && 0 <= c < yArr.Length2 ==>
                      yArr[m, i, c] == old(yArr[m, i, c]))
                && (Labelled() ==>
                      forall m, c :: 0 <= m < emojiArr.Length0 && 0 <= c < emojiArr.Length1 ==>
                        emojiArr[m, c] == old(emojiArr[m, c]))
    {
      match stage
      case Finished =>
        p := Stop;
      case Running =>
        p := PullBatch();
      case Fresh =>
        var go;
        p, go := Start();
        if go {
          p := PullBatch();
        }
    }

    /** The code before the loop: the division, the zeroed buffers and the
        loop test. Either the pull ends here with `p`, or (`go`) the loop
        body runs on zeroed buffers. */
    method Start() returns (p: Pull, go: bool)
      requires Valid() && stage.Fresh?
      modifies this
      ensures Valid()
      ensures go <==> Ready() && NBatches() > 0
      ensures go ==> stage.Fresh? && Shaped(xArr, yArr, emojiArr) && Zeroed(xArr, yArr, emojiArr)
      ensures go ==> fresh(xArr) && fresh(yArr) && (fresh(emojiArr) || emojiArr == old(emojiArr))
      ensures !go ==> stage.Finished?
      ensures batchSize == 0 ==> p == Raise(ZeroDivisionError)
      ensures batchSize > 0 && sequenceLength == 0 ==> p == Raise(ValueError)
      ensures Ready() && NBatches() == 0 ==> p == Stop
      ensures Ready() && |rows| < batchSize ==> NBatches() == 0
    {
      if batchSize == 0 {
        stage := BatchGenerator.Finished;
        return Raise(ZeroDivisionError), false;
      }
      if sequenceLength == 0 {
        stage := BatchGenerator.Finished;
        return Raise(ValueError), false;
      }
      xArr := new bool[batchSize, sequenceLength, |chars|]((m, i, c) => false);
      yArr := new bool[batchSize, sequenceLength - 1, |chars|]((m, i, c) => false);
      if Labelled() {
        emojiArr := new bool[batchSize, |emojiIndices|]((m, c) => false);
      }
      if |rows| < batchSize {
        BatchGenerator.ShortTableHasNoBatch(batchSize, |rows|);
      }
      if NBatches() == 0 {
        stage := BatchGenerator.Finished;
        return Stop, false;
      }
      BatchGenerator.BatchInRange(0, batchSize, |rows|);
      p, go := Stop, true;
    }

    /** One pass of the loop body on buffers that are zero or already hold
        the first batch. */
    method PullBatch() returns (p: Pull)
      requires Valid() && !stage.Finished? && Shaped(xArr, yArr, emojiArr)
      requires Encoded(xArr, yArr, emojiArr) || Zeroed(xArr, yArr, emojiArr)
      modifies this, xArr, yArr, emojiArr
      ensures Valid()
      ensures xArr == old(xArr) && yArr == old(yArr) && emojiArr == old(emojiArr)
      ensures p.Yield? <==> BatchFault().None?
      ensures p.Raise? ==> p.error == BatchFault().value && stage.Finished?
      ensures p.Yield? ==>
                && stage.Running? && Encoded(xArr, yArr, emojiArr)
                && p == Yield(xArr, yArr, if Labelled() then Some(emojiArr) else None)
    {
      var fault := FillBatch(xArr, yArr, emojiArr);
      if fault.Some? {
        stage := BatchGenerator.Finished;
        return Raise(fault.value);
      }
      stage := BatchGenerator.Running;
      p := Yield(xArr, yArr, if Labelled() then Some(emojiArr) else None);
    }

    /** `for m in range(batch_size)`: each text, then its emoji. Every cell
        the loop sets becomes 1 and no cell is cleared. */
    method FillBatch(x: array3<bool>, y: array3<bool>, e: array2<bool>) returns (fault: Option<PyError>)
      requires Alphabet.IsIndexOf(index, chars) && Shaped(x, y, e)
      requires Encoded(x, y, e) || Zeroed(x, y, e)
      modifies x, y, e
      ensures fault == BatchFault()
      ensures fault.None? ==> Encoded(x, y, e)
    {
      ghost var faults := seq(batchSize, m requires 0 <= m < batchSize => RowFault(rows[m]));
      var m := 0;
      while m < batchSize
        invariant 0 <= m <= batchSize
        invariant forall n :: 0 <= n < m ==> faults[n].None?
        invariant forall n, i, c :: 0 <= n < x.Length0 && 0 <= i < x.Length1 && 0 <= c < x.Length2 ==>
                    x[n, i, c] == (old(x[n, i, c]) || (n < m && OneHot.Hot(rows[n].text, i, c, index)))
        invariant forall n, i, c :: 0 <= n < y.Length0 && 0 <= i < y.Length1 && 0 <= c < y.Length2 ==>
                    y[n, i, c] == (old(y[n, i, c]) || (n < m && OneHot.Hot(rows[n].text, i + 1, c, index)))
        invariant Labelled() ==>
                    forall n, c :: 0 <= n < e.Length0 && 0 <= c < e.Length1 ==>
                      e[n, c] == (old(e[n, c]) || (n < m && OneHot.SymbolHot(rows[n].emoji, c, emojiIndices)))
      {
        var tf := FillText(x, y, m, rows[m].text, index);
        if tf.Some? {
          FirstFaultAt(faults, m);
          return tf;
        }
        if Labelled() {
          var emoji := rows[m].emoji;
          if emoji !in emojiIndices {
            FirstFaultAt(faults, m);
            return Some(KeyError(emoji));
          }
          var c := emojiIndices[emoji];
          if c >= |emojiIndices| {
            FirstFaultAt(faults, m);
            return Some(IndexError);
          }
          e[m, c] := true;
        }
        m := m + 1;
      }
      fault := None;
    }

    /** What a consumer of a yielded `(x, y)` sees: position `i < len(text)`
        of row `m` is one-hot at the index of `text[i]`, later positions are
        all zero, `y[m, i]` equals `x[m, i + 1]`, and an emoji row is one-hot
        at its emoji's index. */
    lemma YieldedTensors()
      requires Valid() && stage.Running?
      ensures forall m, i, c :: 0 <= m < batchSize && 0 <= i < |rows[m].text| && 0 <= c < |chars| ==>
                i < sequenceLength && rows[m].text[i] in index && (xArr[m, i, c] <==> c == index[rows[m].text[i]])
      ensures forall m, i, c :: 0 <= m < batchSize && |rows[m].text| <= i < sequenceLength && 0 <= c < |chars| ==>
                !xArr[m, i, c]
      ensures forall m, i, c :: 0 <= m < batchSize && 0 <= i < sequenceLength - 1 && 0 <= c < |chars| ==>
                yArr[m, i, c] == xArr[m, i + 1, c]
      ensures Labelled() ==>
                forall m, c :: 0 <= m < batchSize && 0 <= c < |emojiIndices| ==>
                  rows[m].emoji in emojiIndices && (emojiArr[m, c] <==> c == emojiIndices[rows[m].emoji])
    {
      var faults := seq(batchSize, m requires 0 <= m < batchSize => RowFault(rows[m]));
      forall m | 0 <= m < batchSize
        ensures |rows[m].text| <= sequenceLength
        ensures forall i :: 0 <= i < |rows[m].text| ==> rows[m].text[i] in index
        ensures Labelled() ==> rows[m].emoji in emojiIndices
      {
        assert faults[m].None?;
        var text := rows[m].text;
        assert forall i :: 0 <= i < |text| ==> text[i] in text;
      }
    }
  }
}
