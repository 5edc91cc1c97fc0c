/**
 * The search button's filter: the query is trimmed and lower-cased, and the word
 * list keeps, in order, the words whose lower-cased `word` includes it.
 */
module Search {
  import opened Text
  import opened View

  /** `input.value.trim().toLowerCase()` */
  function SearchKey(input: string): (key: string)
    ensures forall i :: 0 <= i < |key| ==> !('A' <= key[i] <= 'Z')
  {
    ToLower(Trim(input))
  }

  /**
   * Every word of the full list has a string `word` field; on a null or missing
   * one, `word.word.toLowerCase()` throws and the list is never shown.
   */
  predicate Searchable(ws: seq<Word>) {
    forall w :: w in ws ==> w.word.Str?
  }

  /** The word's lower-cased text includes the key; the empty key matches every word. */
  predicate Matches(w: Word, key: string)
    requires w.word.Str?
    ensures key == [] ==> Matches(w, key)
    ensures Matches(w, key) ==> |key| <= |w.word.s|
  {
    Includes(ToLower(w.word.s), key)
  }

  /** `allWords.filter((word) => word.word.toLowerCase().includes(key))` */
  function FilterWords(ws: seq<Word>, key: string): (r: seq<Word>)
    requires Searchable(ws)
    ensures |r| <= |ws|
    ensures forall w :: w in r ==> w in ws
  {
    if ws == [] then []
    else (if Matches(ws[0], key) then [ws[0]] else []) + FilterWords(ws[1..], key)
  }

  /** A word is in the result exactly when it is in the list and matches the key. */
  lemma {:induction false} FilterMembership(ws: seq<Word>, key: string, w: Word)
    requires Searchable(ws)
    ensures w in FilterWords(ws, key) <==> w in ws && Matches(w, key)
  {
    if ws != [] {
      FilterMembership(ws[1..], key, w);
      assert w in ws <==> w == ws[0] || w in ws[1..];
    }
  }

  /** Filtering a concatenation filters each part: the kept words stay in their original order. */
  lemma {:induction false} FilterConcat(a: seq<Word>, b: seq<Word>, key: string)
    requires Searchable(a) && Searchable(b)
    ensures Searchable(a + b)
    ensures FilterWords(a + b, key) == FilterWords(a, key) + FilterWords(b, key)
  {
    assert Searchable(a + b) by {
      forall w | w in a + b ensures w.word.Str? {
        assert w in a || w in b;
      }
    }
    if a != [] {
      assert (a + b)[1..] == a[1..] + b;
      FilterConcat(a[1..], b, key);
    } else {
      assert a + b == b;
    }
  }

  /** Each word is kept or dropped on its own: a single word survives exactly when it matches. */
  lemma FilterSingle(w: Word, key: string)
    requires w.word.Str?
    ensures FilterWords([w], key) == if Matches(w, key) then [w] else []
  {
  }

  /** Searching the result again with the same key changes nothing. */
  lemma {:induction false} FilterIdempotent(ws: seq<Word>, key: string)
    requires Searchable(ws)
    ensures FilterWords(FilterWords(ws, key), key) == FilterWords(ws, key)
  {
    if ws != [] {
      FilterIdempotent(ws[1..], key);
      var head := if Matches(ws[0], key) then [ws[0]] else [];
      FilterConcat(head, FilterWords(ws[1..], key), key);
      if Matches(ws[0], key) {
        FilterSingle(ws[0], key);
      }
    }
  }

  /** A query of nothing but white space keeps every word, in order. */
  lemma {:induction false} BlankQueryKeepsAll(ws: seq<Word>, input: string)
    requires Searchable(ws) && AllSpace(input)
    ensures FilterWords(ws, SearchKey(input)) == ws
  {
    TrimEmptyIffBlank(input);
    assert SearchKey(input) == [];
    if ws != [] {
      IncludesEmpty(ToLower(ws[0].word.s));
      BlankQueryKeepsAll(ws[1..], input);
    }
  }

  /** The case of the query does not matter: inputs that lower-case alike give the same key. */
  lemma SearchKeyIgnoresCase(a: string, b: string)
    requires ToLower(a) == ToLower(b)
    ensures SearchKey(a) == SearchKey(b)
  {
    TrimCommutesLower(a);
    TrimCommutesLower(b);
  }

  /** The case of a word does not matter: words that lower-case alike match the same keys. */
  lemma MatchIgnoresCase(w: Word, w': Word, key: string)
    requires w.word.Str? && w'.word.Str? && ToLower(w.word.s) == ToLower(w'.word.s)
    ensures Matches(w, key) <==> Matches(w', key)
  {
  }

  lemma HelloTrim()
    ensures Trim(" HeLLo ") == "HeLLo"
  {
    var s := " HeLLo ";
    assert IsJsSpace(s[0]);
    assert s[1..] == "HeLLo ";
    assert !IsJsSpace('H');
    assert TrimStart("HeLLo ") == "HeLLo ";
    assert TrimStart(s) == "HeLLo ";
    assert IsJsSpace(' ');
    assert "HeLLo "[..5] == "HeLLo";
    assert !IsJsSpace('o');
    assert TrimEnd("HeLLo") == "HeLLo";
  }

  lemma HelloLower()
    ensures ToLower("HeLLo") == "hello"
  {
  }

  lemma HelloKey()
    ensures SearchKey(" HeLLo ") == "hello"
  {
    HelloTrim();
    HelloLower();
  }

  lemma HelloMatches()
    ensures Includes(ToLower("Hello"), "hello")
    ensures !Includes(ToLower("World"), "hello")
    ensures Includes(ToLower("say hello"), "hello")
  {
    var a := ToLower("Hello");
    assert a[0] == 'h' && a[1] == 'e' && a[2] == 'l' && a[3] == 'l' && a[4] == 'o';
    assert StartsWith(a, "hello");
    var b := ToLower("World");
    assert b[0] == 'w';
    assert !StartsWith(b, "hello");
    assert !Includes(b[1..], "hello");
    var c := ToLower("say hello");
    assert c == "say hello";
    assert OccursAt(c, "hello", 4);
    IncludesIffOccurs(c, "hello");
  }

  /** Three words, the middle one not matching: the filter keeps the outer two, in order. */
  lemma FilterThree(a: Word, b: Word, c: Word, key: string)
    requires a.word.Str? && b.word.Str? && c.word.Str?
    requires Matches(a, key) && !Matches(b, key) && Matches(c, key)
    ensures FilterWords([a, b, c], key) == [a, c]
  {
    FilterSingle(a, key);
    FilterSingle(b, key);
    FilterSingle(c, key);
    FilterConcat([b], [c], key);
    assert [b] + [c] == [b, c];
    FilterConcat([a], [b, c], key);
    assert [a] + [b, c] == [a, b, c];
  }

  /**
   * The example of a case-insensitive search: the key "hello" (what " HeLLo "
   * normalises to, by HelloKey) keeps "Hello" and "say hello" and drops "World".
   */
  lemma HelloFilter(hello: Word, world: Word, sayHello: Word)
    requires hello.word == Str("Hello") && world.word == Str("World") && sayHello.word == Str("say hello")
    ensures FilterWords([hello, world, sayHello], "hello") == [hello, sayHello]
  {
    HelloMatches();
    FilterThree(hello, world, sayHello, "hello");
  }
}
