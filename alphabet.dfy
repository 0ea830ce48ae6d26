/** The character alphabet and the label (emoji) vocabulary: a sorted,
    de-duplicated list of symbols and the map from each symbol to its
    position (`get_unique_chars_list`, `get_emojis_list`,
    `get_universal_chars_list`). */
module Alphabet {
  import opened Strings

  /** `data_load_utils.CHARACTERS`, written as its four runs (punctuation,
      lower case, upper case, digits) so that the verifier can reason about
      each run. It lists `'`, `"` and `0` twice; the builder's set removes
      the repeats. It has no newline. */
  const PUNCTUATION: string := " '\",.\\/|?:;@'~#[]{}-=_+!\"£$%^&*()"
  const LOWERCASE: string := "abcdefghijklmnopqrstuvwxyz"
  const UPPERCASE: string := "ABCDEFGHIJKLMNOPQRSTUVWXYZ"
  const DIGITS: string := "01234567890"
  const CHARACTERS: string := PUNCTUATION + LOWERCASE + UPPERCASE + DIGITS

  ghost predicate StrictTotalOrder<T(!new)>(lt: (T, T) -> bool)
  {
    && (forall a :: !lt(a, a))
    && (forall a, b, c :: lt(a, b) && lt(b, c) ==> lt(a, c))
    && (forall a, b :: a == b || lt(a, b) || lt(b, a))
  }

  predicate StrictlyAscending<T(!new)>(s: seq<T>, lt: (T, T) -> bool)
  {
    forall i, j :: 0 <= i < j < |s| ==> lt(s[i], s[j])
  }

  predicate Distinct<T(==,!new)>(s: seq<T>)
  {
    forall i, j :: 0 <= i < j < |s| ==> s[i] != s[j]
  }

  /** Python's ordering of characters: by code point. */
  function CharLess(a: char, b: char): bool
  {
    a < b
  }

  /** Python's ordering of strings: lexicographic by code point, a proper
      prefix first. */
  function LexLess(a: string, b: string): bool
  {
    if |a| == 0 then |b| > 0
    else if |b| == 0 then false
    else if a[0] != b[0] then a[0] < b[0]
    else LexLess(a[1..], b[1..])
  }

  lemma CharLessIsOrder()
    ensures StrictTotalOrder(CharLess)
  {
  }

  lemma {:induction false} LexLessIrreflexive(a: string)
    ensures !LexLess(a, a)
  {
    if |a| > 0 {
      LexLessIrreflexive(a[1..]);
    }
  }

  lemma {:induction false} LexLessTransitive(a: string, b: string, c: string)
    requires LexLess(a, b) && LexLess(b, c)
    ensures LexLess(a, c)
  {
    if |a| > 0 && |b| > 0 && |c| > 0 && a[0] == b[0] && b[0] == c[0] {
      LexLessTransitive(a[1..], b[1..], c[1..]);
    }
  }

  lemma {:induction false} LexLessTotal(a: string, b: string)
    ensures a == b || LexLess(a, b) || LexLess(b, a)
  {
    if |a| > 0 && |b| > 0 && a[0] == b[0] {
      LexLessTotal(a[1..], b[1..]);
      if a[1..] == b[1..] {
        assert a == [a[0]] + a[1..] && b == [b[0]] + b[1..];
      }
    }
  }

  /** String comparison is a strict total order, so sorting labels is well defined. */
  lemma LexLessIsOrder()
    ensures StrictTotalOrder(LexLess)
  {
    forall a: string
      ensures !LexLess(a, a)
    {
      LexLessIrreflexive(a);
    }
    forall a: string, b: string, c: string | LexLess(a, b) && LexLess(b, c)
      ensures LexLess(a, c)
    {
      LexLessTransitive(a, b, c);
    }
    forall a: string, b: string
      ensures a == b || LexLess(a, b) || LexLess(b, a)
    {
      LexLessTotal(a, b);
    }
  }

  /** Inserts `x` into an ascending list unless it is already there. */
  function Insert<T(==,!new)>(x: T, s: seq<T>, lt: (T, T) -> bool): (r: seq<T>)
    requires StrictTotalOrder(lt) && StrictlyAscending(s, lt)
    ensures StrictlyAscending(r, lt)
    ensures forall y :: y in r <==> y == x || y in s
  {
    if |s| == 0 then [x]
    else if x == s[0] then s
    else if lt(x, s[0]) then [x] + s
    else
      var tail := Insert(x, s[1..], lt);
      assert forall y :: y in tail ==> y in s || y == x;
      assert forall y :: y in tail ==> lt(s[0], y);
      var r := [s[0]] + tail;
      assert forall j :: 1 <= j < |r| ==> r[j] in tail;
      r
  }

  /** `sorted(list(set(s)))`. */
  function SortedUnique<T(==,!new)>(s: seq<T>, lt: (T, T) -> bool): (r: seq<T>)
    requires StrictTotalOrder(lt)
    ensures StrictlyAscending(r, lt)
    ensures forall y :: y in r <==> y in s
  {
    if |s| == 0 then []
    else
      var front := SortedUnique(s[..|s| - 1], lt);
      assert forall y :: y in s ==> y in s[..|s| - 1] || y == s[|s| - 1];
      Insert(s[|s| - 1], front, lt)
  }

  lemma AscendingIsDistinct<T(!new)>(s: seq<T>, lt: (T, T) -> bool)
    requires StrictTotalOrder(lt) && StrictlyAscending(s, lt)
    ensures Distinct(s)
  {
  }

  /** The head of an ascending list precedes every other element. */
  lemma AscendingHead<T(!new)>(s: seq<T>, y: T, lt: (T, T) -> bool)
    requires StrictlyAscending(s, lt)
    requires y in s && |s| > 0 && y != s[0]
    ensures lt(s[0], y)
  {
    var k :| 0 <= k < |s| && s[k] == y;
  }

  lemma HeadIsElement<T>(s: seq<T>)
    ensures |s| > 0 ==> s[0] in s
  {
  }

  /** An ascending duplicate-free list is determined by its elements: the
      builders' output depends only on the SET of input symbols, not on
      their order or repetitions. */
  lemma {:induction false} AscendingUnique<T(!new)>(a: seq<T>, b: seq<T>, lt: (T, T) -> bool)
    requires StrictTotalOrder(lt)
    requires StrictlyAscending(a, lt) && StrictlyAscending(b, lt)
    requires forall y :: y in a <==> y in b
    ensures a == b
  {
    HeadIsElement(a);
    HeadIsElement(b);
    if |a| > 0 && |b| > 0 {
      if a[0] != b[0] {
        AscendingHead(a, b[0], lt);
        AscendingHead(b, a[0], lt);
        assert false;
      }
      forall y
        ensures y in a[1..] <==> y in b[1..]
      {
        if y in a[1..] {
          var i :| 1 <= i < |a| && a[i] == y;
          assert lt(a[0], y);
          assert y in b;
        }
        if y in b[1..] {
          var j :| 1 <= j < |b| && b[j] == y;
          assert lt(b[0], y);
          assert y in a;
        }
      }
      AscendingUnique(a[1..], b[1..], lt);
      assert a == [a[0]] + a[1..] && b == [b[0]] + b[1..];
    }
  }

  /** `sorted(set(a)) == sorted(set(b))` whenever `a` and `b` hold the same symbols. */
  lemma SortedUniqueDependsOnElements<T(!new)>(a: seq<T>, b: seq<T>, lt: (T, T) -> bool)
    requires StrictTotalOrder(lt)
    requires forall y :: y in a <==> y in b
    ensures SortedUnique(a, lt) == SortedUnique(b, lt)
  {
    AscendingUnique(SortedUnique(a, lt), SortedUnique(b, lt), lt);
  }

  /** Two ascending lists with the same elements, and their position maps,
      are equal. */
  lemma IndexedAscendingUnique<T(!new)>(a: seq<T>, ia: map<T, nat>, b: seq<T>, ib: map<T, nat>, lt: (T, T) -> bool)
    requires StrictTotalOrder(lt)
    requires StrictlyAscending(a, lt) && StrictlyAscending(b, lt)
    requires IsIndexOf(ia, a) && IsIndexOf(ib, b)
    requires forall y :: y in a <==> y in b
    ensures a == b && ia == ib
  {
    AscendingUnique(a, b, lt);
    forall y | y in ia
      ensures y in ib && ia[y] == ib[y]
    {
      assert a[ib[y]] == y;
    }
    assert ia.Keys == ib.Keys;
  }

  /** `s.index(x)`: the position of the first occurrence of `x`. */
  function IndexOf<T(==,!new)>(s: seq<T>, x: T): (k: nat)
    requires x in s
    ensures k < |s| && s[k] == x
    ensures forall j :: 0 <= j < k ==> s[j] != x
  {
    if s[0] == x then 0 else 1 + IndexOf(s[1..], x)
  }

  /** `dict((x, s.index(x)) for x in s)`. */
  function IndexMap<T(==,!new)>(s: seq<T>): (m: map<T, nat>)
    ensures forall x :: x in m <==> x in s
    ensures forall x :: x in m ==> m[x] < |s| && s[m[x]] == x
  {
    map x | x in s :: IndexOf(s, x)
  }

  /** `idx` is the position map of the duplicate-free list `s`: a bijection
      between the symbols of `s` and the positions `[0, |s|)`. */
  ghost predicate IsIndexOf<T(!new)>(idx: map<T, nat>, s: seq<T>)
  {
    && Distinct(s)
    && (forall x :: x in idx <==> x in s)
    && (forall k :: 0 <= k < |s| ==> s[k] in idx && idx[s[k]] == k)
    && (forall x :: x in idx ==> idx[x] < |s| && s[idx[x]] == x)
    && |idx| == |s|
  }

  lemma {:induction false} DistinctCardinality<T(!new)>(s: seq<T>)
    requires Distinct(s)
    ensures |set x | x in s| == |s|
  {
    if |s| > 0 {
      var front := s[..|s| - 1];
      DistinctCardinality(front);
      assert (set x | x in s) == (set x | x in front) + {s[|s| - 1]};
      assert s[|s| - 1] !in front;
    }
  }

  /** Over a duplicate-free list, `IndexMap` is its position bijection. */
  lemma IndexMapIsIndex<T(!new)>(s: seq<T>)
    requires Distinct(s)
    ensures IsIndexOf(IndexMap(s), s)
  {
    var m := IndexMap(s);
    DistinctCardinality(s);
    assert m.Keys == set x | x in s;
  }

  /** `get_unique_chars_list`: the characters of the strings joined with
      spaces, sorted and de-duplicated, and their position map. */
  function UniqueCharsList(strings: seq<string>): (r: (seq<char>, map<char, nat>))
    ensures StrictlyAscending(r.0, CharLess)
    ensures forall c :: c in r.0 <==> c in Join(strings, ' ')
    ensures IsIndexOf(r.1, r.0)
  {
    CharLessIsOrder();
    var chars := SortedUnique(Join(strings, ' '), CharLess);
    AscendingIsDistinct(chars, CharLess);
    IndexMapIsIndex(chars);
    (chars, IndexMap(chars))
  }

  /** Joining two or more strings puts a space into the alphabet. */
  lemma SpaceWhenJoining(strings: seq<string>)
    requires |strings| >= 2
    ensures ' ' in UniqueCharsList(strings).0
  {
    InJoin(strings, ' ', ' ');
  }

  /** `get_emojis_list`: the distinct labels in ascending order and their
      position map. */
  function EmojisList(labels: seq<string>): (r: (seq<string>, map<string, nat>))
    ensures StrictlyAscending(r.0, LexLess)
    ensures forall e :: e in r.0 <==> e in labels
    ensures IsIndexOf(r.1, r.0)
  {
    LexLessIsOrder();
    var emojis := SortedUnique(labels, LexLess);
    AscendingIsDistinct(emojis, LexLess);
    IndexMapIsIndex(emojis);
    (emojis, IndexMap(emojis))
  }

  /** The constant as Python iterates it: one string per character. */
  function CharacterStrings(): seq<string>
  {
    seq(|CHARACTERS|, k requires 0 <= k < |CHARACTERS| => [CHARACTERS[k]])
  }

  /** `get_universal_chars_list`. */
  function UniversalCharsList(): (r: (seq<char>, map<char, nat>))
    ensures StrictlyAscending(r.0, CharLess)
    ensures IsIndexOf(r.1, r.0)
  {
    UniqueCharsList(CharacterStrings())
  }

  /** The universal alphabet is exactly the set of characters of
      `CHARACTERS`: the spaces the join inserts are already in it. */
  lemma UniversalAlphabetElements(c: char)
    ensures c in UniversalCharsList().0 <==> c in CHARACTERS
  {
    var parts := CharacterStrings();
    InJoin(parts, ' ', c);
    if exists k :: 0 <= k < |parts| && c in parts[k] {
      var k :| 0 <= k < |parts| && c in parts[k];
      assert c == CHARACTERS[k];
    }
    if c in CHARACTERS {
      var k :| 0 <= k < |CHARACTERS| && CHARACTERS[k] == c;
      assert c in parts[k];
    }
    assert CHARACTERS[0] == ' ';
  }

  /** The universal alphabet described by what it is rather than how it is
      built: the characters of `CHARACTERS` in ascending order, each once,
      with their position map. */
  ghost predicate IsUniversalAlphabet(chars: seq<char>, index: map<char, nat>)
  {
    && StrictlyAscending(chars, CharLess)
    && IsIndexOf(index, chars)
    && (forall c :: c in chars <==> c in CHARACTERS)
  }

  lemma UniversalCharsListIsUniversal()
    ensures IsUniversalAlphabet(UniversalCharsList().0, UniversalCharsList().1)
  {
    forall c
      ensures c in UniversalCharsList().0 <==> c in CHARACTERS
    {
      UniversalAlphabetElements(c);
    }
  }

  /** Exactly one list and index fit that description, the one
      `get_universal_chars_list` builds. */
  lemma UniversalAlphabetIsUnique(chars: seq<char>, index: map<char, nat>)
    requires IsUniversalAlphabet(chars, index)
    ensures (chars, index) == UniversalCharsList()
  {
    var universal := UniversalCharsList();
    UniversalCharsListIsUniversal();
    CharLessIsOrder();
    IndexedAscendingUnique(chars, index, universal.0, universal.1, CharLess);
  }

  /** `get_universal_chars_list()` as the generators call it. */
  method UniversalAlphabet() returns (chars: seq<char>, index: map<char, nat>)
    ensures IsUniversalAlphabet(chars, index)
  {
    UniversalCharsListIsUniversal();
    var universal := UniversalCharsList();
    chars, index := universal.0, universal.1;
  }

  /** A newline is not in the universal alphabet, so encoding one with it
      fails. */
  lemma NewlineNotUniversal()
    ensures '\n' !in UniversalCharsList().0
    ensures '\n' !in UniversalCharsList().1
  {
    NewlineNotInCharacters();
    UniversalAlphabetElements('\n');
  }

  lemma NewlineNotInCharacters()
    ensures '\n' !in CHARACTERS
  {
  }
}
