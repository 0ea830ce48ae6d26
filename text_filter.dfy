/** The text sanitiser applied to every post before encoding
    (`filter_text_for_handles`, and its copy `filter_text` in the seq2seq
    loader): drop every space-separated word that starts with `@`, then
    keep only the characters of the alphabet. */
module TextFilter {
  import opened Strings
  import Alphabet

  /** `word.startswith('@')`. */
  predicate IsHandle(word: string)
  {
    |word| > 0 && word[0] == '@'
  }

  /** The words that are not handles, in their original order. */
  function DropHandles(words: seq<string>): (r: seq<string>)
    ensures forall k :: 0 <= k < |r| ==> !IsHandle(r[k])
    ensures forall w :: w in r <==> w in words && !IsHandle(w)
  {
    if |words| == 0 then []
    else
      var rest := DropHandles(words[1..]);
      assert forall w :: w in words <==> w == words[0] || w in words[1..];
      if IsHandle(words[0]) then rest else [words[0]] + rest
  }

  /** The filter works word by word: filtering a concatenation filters each
      part and keeps their order. */
  lemma {:induction false} DropHandlesAppend(a: seq<string>, b: seq<string>)
    ensures DropHandles(a + b) == DropHandles(a) + DropHandles(b)
  {
    if |a| > 0 {
      DropHandlesAppend(a[1..], b);
      assert (a + b)[1..] == a[1..] + b;
    } else {
      assert a + b == b;
    }
  }

  lemma {:induction false} DropHandlesKeepsHandleFree(words: seq<string>)
    requires forall k :: 0 <= k < |words| ==> !IsHandle(words[k])
    ensures DropHandles(words) == words
  {
    if |words| > 0 {
      DropHandlesKeepsHandleFree(words[1..]);
      assert words == [words[0]] + words[1..];
    }
  }

  /** `filter_handles`: `' '.join(w for w in txt.split(' ') if not w.startswith('@'))`. */
  function FilterHandles(txt: string): string
  {
    Join(DropHandles(Split(txt, ' ')), ' ')
  }

  /** `filter_chars`: the characters of `txt` that are in `chars`, in order. */
  function FilterChars(txt: string, chars: string): (r: string)
    ensures forall c :: c in r <==> c in txt && c in chars
    ensures |r| <= |txt|
  {
    if |txt| == 0 then ""
    else
      var rest := FilterChars(txt[1..], chars);
      assert forall c :: c in txt <==> c == txt[0] || c in txt[1..];
      if txt[0] in chars then [txt[0]] + rest else rest
  }

  /** The character filter works character by character: filtering `a + b`
      filters each part and keeps their order, so every occurrence of an
      alphabet character survives. */
  lemma {:induction false} FilterCharsAppend(a: string, b: string, chars: string)
    ensures FilterChars(a + b, chars) == FilterChars(a, chars) + FilterChars(b, chars)
  {
    if |a| > 0 {
      FilterCharsAppend(a[1..], b, chars);
      assert (a + b)[1..] == a[1..] + b;
    } else {
      assert a + b == b;
    }
  }

  /** The composed filter applied to one post. */
  function Filter(txt: string, chars: string): string
  {
    FilterChars(FilterHandles(txt), chars)
  }

  /** `text.apply(filter)` over a column of posts. */
  function FilterAll(texts: seq<string>, chars: string): seq<string>
  {
    seq(|texts|, k requires 0 <= k < |texts| => Filter(texts[k], chars))
  }

  /** `filter_text_for_handles(text)` with its default alphabet. */
  function FilterTextForHandles(texts: seq<string>): (r: seq<string>)
    ensures |r| == |texts|
    ensures forall k, c :: 0 <= k < |r| && c in r[k] ==> c in Alphabet.CHARACTERS
    ensures forall k :: 0 <= k < |r| ==> '\n' !in r[k]
  {
    Alphabet.NewlineNotInCharacters();
    FilterAll(texts, Alphabet.CHARACTERS)
  }

  /** After the handle filter no space-separated word is a handle. */
  lemma NoHandlesAfterFilter(txt: string)
    ensures forall w :: w in Split(FilterHandles(txt), ' ') ==> !IsHandle(w)
  {
    var kept := DropHandles(Split(txt, ' '));
    if |kept| == 0 {
      assert Split(FilterHandles(txt), ' ') == [""];
    } else {
      forall k | 0 <= k < |kept|
        ensures ' ' !in kept[k]
      {
        assert kept[k] in Split(txt, ' ');
      }
      SplitJoin(kept, ' ');
    }
  }

  /** A post with no handle passes the handle filter unchanged. */
  lemma FilterHandlesKeepsHandleFreeText(txt: string)
    requires forall w :: w in Split(txt, ' ') ==> !IsHandle(w)
    ensures FilterHandles(txt) == txt
  {
    DropHandlesKeepsHandleFree(Split(txt, ' '));
    JoinSplit(txt, ' ');
  }

  /** `a` can be obtained from `b` by deleting characters. */
  predicate IsSubsequence(a: string, b: string)
  {
    if |a| == 0 then true
    else if |b| == 0 then false
    else if a[0] == b[0] then IsSubsequence(a[1..], b[1..])
    else IsSubsequence(a, b[1..])
  }

  /** The character filter keeps the order of what it keeps. */
  lemma {:induction false} FilterCharsIsSubsequence(txt: string, chars: string)
    ensures IsSubsequence(FilterChars(txt, chars), txt)
  {
    if |txt| > 0 {
      FilterCharsIsSubsequence(txt[1..], chars);
      var rest := FilterChars(txt[1..], chars);
      if txt[0] in chars {
        assert ([txt[0]] + rest)[1..] == rest;
      } else {
        SubsequenceOfTail(rest, txt);
      }
    }
  }

  lemma {:induction false} SubsequenceOfTail(a: string, b: string)
    requires |b| > 0 && IsSubsequence(a, b[1..])
    ensures IsSubsequence(a, b)
  {
    if |a| > 0 && a[0] == b[0] {
      SubsequenceDropHead(a, b[1..]);
    }
  }

  lemma {:induction false} SubsequenceDropHead(a: string, b: string)
    requires |a| > 0 && IsSubsequence(a, b)
    ensures IsSubsequence(a[1..], b)
  {
    if |b| > 0 {
      if a[0] == b[0] {
        SubsequenceOfTail(a[1..], b);
      } else {
        SubsequenceDropHead(a, b[1..]);
        SubsequenceOfTail(a[1..], b);
      }
    }
  }

  /** Filtering characters twice is the same as filtering once. */
  lemma {:induction false} FilterCharsIdempotent(txt: string, chars: string)
    ensures FilterChars(FilterChars(txt, chars), chars) == FilterChars(txt, chars)
  {
    if |txt| > 0 {
      FilterCharsIdempotent(txt[1..], chars);
      var rest := FilterChars(txt[1..], chars);
      if txt[0] in chars {
        assert ([txt[0]] + rest)[1..] == rest;
      }
    }
  }

  /** Every character of the filtered post is in the alphabet; with the
      default alphabet no newline survives. */
  lemma FilterOutputInAlphabet(txt: string, chars: string)
    ensures forall c :: c in Filter(txt, chars) ==> c in chars
    ensures chars == Alphabet.CHARACTERS ==> '\n' !in Filter(txt, chars)
  {
    Alphabet.NewlineNotInCharacters();
  }

  /** Text made only of alphabet characters passes the character filter unchanged. */
  lemma {:induction false} FilterCharsKeepsAlphabetText(txt: string, chars: string)
    requires forall c :: c in txt ==> c in chars
    ensures FilterChars(txt, chars) == txt
  {
    if |txt| > 0 {
      FilterCharsKeepsAlphabetText(txt[1..], chars);
      assert txt == [txt[0]] + txt[1..];
    }
  }

  /** The second case of the repository's handle-filter test: the post
      `more @text with handle`, given as its words, filters to
      `more with handle`. */
  lemma HandleFilterExample(words: seq<string>)
    requires words == ["more", "@text", "with", "handle"]
    ensures Filter(Join(words, ' '), Alphabet.CHARACTERS) == "more with handle"
  {
    var kept := FilterHandles(Join(words, ' '));
    HandleExampleWords(words);
    ExampleInAlphabet(kept);
    FilterCharsKeepsAlphabetText(kept, Alphabet.CHARACTERS);
  }

  lemma HandleExampleWords(words: seq<string>)
    requires words == ["more", "@text", "with", "handle"]
    ensures FilterHandles(Join(words, ' ')) == "more with handle"
  {
    assert forall k :: 0 <= k < |words| ==> ' ' !in words[k];
    SplitJoin(words, ' ');
    ExampleDropHandles(words);
    ExampleJoin(["more", "with", "handle"]);
  }

  lemma ExampleDropHandles(words: seq<string>)
    requires words == ["more", "@text", "with", "handle"]
    ensures DropHandles(words) == ["more", "with", "handle"]
  {
    assert words[1..] == ["@text", "with", "handle"];
    assert words[2..] == ["with", "handle"];
    assert words[3..] == ["handle"];
    assert DropHandles(words[3..]) == ["handle"];
    assert DropHandles(words[2..]) == ["with", "handle"];
    assert DropHandles(words[1..]) == ["with", "handle"];
  }

  lemma ExampleJoin(words: seq<string>)
    requires words == ["more", "with", "handle"]
    ensures Join(words, ' ') == "more with handle"
  {
    assert words[1..] == ["with", "handle"];
    assert words[2..] == ["handle"];
    assert Join(words[1..], ' ') == "with" + " " + "handle";
    assert Join(words, ' ') == "more" + " " + ("with" + " " + "handle");
  }

  lemma ExampleInAlphabet(txt: string)
    requires txt == "more with handle"
    ensures forall c :: c in txt ==> c in Alphabet.CHARACTERS
  {
    assert forall c :: c in txt ==> c == ' ' || c in Alphabet.LOWERCASE;
  }
}
