/**
 * The records the page renders, in place of HTML: word cards, the empty-state
 * panel, lesson buttons, synonym pills and the word-detail view, and the pure
 * functions that turn API records into them.
 */
module View {
  import opened Wrappers
  import opened Decimal

  /** A string field of a JSON record as the page sees it: absent, null, or a string. */
  datatype JsValue = Undefined | Null | Str(s: string)

  /** JavaScript truthiness of such a field: only a non-empty string is truthy. */
  predicate Truthy(v: JsValue) {
    v.Str? && v.s != ""
  }

  /** What `${v}` produces inside a template literal: a string as it is, a missing value as its name. */
  function Interpolate(v: JsValue): (r: string)
    ensures v.Str? ==> r == v.s
    ensures v == Undefined ==> r == "undefined"
    ensures v == Null ==> r == "null"
  {
    match v
    case Undefined => "undefined"
    case Null => "null"
    case Str(s) => s
  }

  /** A word record from the API; `synonyms` is None when the array is absent or null. */
  datatype Word = Word(
    id: int,
    word: JsValue,
    pronunciation: JsValue,
    meaning: JsValue,
    sentence: JsValue,
    synonyms: Option<seq<string>>)

  /** A lesson record from the API. */
  datatype Lesson = Lesson(levelNo: int)

  const NoWordText := "শব্দ পাওয়া যায়নি"
  const NoMeaningText := "অর্থ পাওয়া যায়নি"
  const NoPronunciationText := "Pronunciation পাওয়া যায়নি"

  /** `v ? v : placeholder`: the field's own text or the placeholder, and never blank when the placeholder is not. */
  function OrPlaceholder(v: JsValue, placeholder: string): (r: string)
    ensures r == placeholder || (v.Str? && r == v.s)
    ensures placeholder != [] ==> r != []
  {
    if Truthy(v) then v.s else placeholder
  }

  // ---------------------------------------------------------------- word cards

  /**
   * One word card: headline, meaning and pronunciation (each with its own
   * fallback), the id the info button asks details for, and the text the speak
   * button reads out (the raw `word` field, with no fallback).
   */
  datatype Card = Card(
    headline: string,
    meaning: string,
    pronunciation: string,
    detailId: int,
    speech: string)

  function CardOf(w: Word): (c: Card)
    ensures c.headline != [] && c.meaning != [] && c.pronunciation != []
    ensures c.detailId == w.id && c.speech == Interpolate(w.word)
  {
    Card(OrPlaceholder(w.word, NoWordText),
         OrPlaceholder(w.meaning, NoMeaningText),
         OrPlaceholder(w.pronunciation, NoPronunciationText),
         w.id,
         Interpolate(w.word))
  }

  /** A card shows a field's own value when it is truthy and its placeholder otherwise. */
  lemma CardFallbacks(w: Word)
    ensures Truthy(w.word) ==> CardOf(w).headline == w.word.s
    ensures !Truthy(w.word) ==> CardOf(w).headline == NoWordText
    ensures Truthy(w.meaning) ==> CardOf(w).meaning == w.meaning.s
    ensures !Truthy(w.meaning) ==> CardOf(w).meaning == NoMeaningText
    ensures Truthy(w.pronunciation) ==> CardOf(w).pronunciation == w.pronunciation.s
    ensures !Truthy(w.pronunciation) ==> CardOf(w).pronunciation == NoPronunciationText
  {
  }

  /** Changing one field of a word never changes the card's other fields. */
  lemma CardFieldsIndependent(w: Word, v: JsValue)
    ensures var c, c' := CardOf(w), CardOf(w.(word := v));
      c'.meaning == c.meaning && c'.pronunciation == c.pronunciation
    ensures var c, c' := CardOf(w), CardOf(w.(meaning := v));
      c'.headline == c.headline && c'.pronunciation == c.pronunciation && c'.speech == c.speech
    ensures var c, c' := CardOf(w), CardOf(w.(pronunciation := v));
      c'.headline == c.headline && c'.meaning == c.meaning && c'.speech == c.speech
  {
  }

  /** A child of the word container. */
  datatype WordNode = EmptyStatePanel | CardNode(card: Card)

  /** One card per word, in input order. */
  function CardNodes(words: seq<Word>): (r: seq<WordNode>) {
    seq(|words|, i requires 0 <= i < |words| => CardNode(CardOf(words[i])))
  }

  /** What the word container holds after the word list is rendered: never nothing, and one node per word when there are words. */
  function WordListView(words: seq<Word>): (r: seq<WordNode>)
    ensures |r| >= 1
    ensures |words| > 0 ==> |r| == |words|
  {
    if |words| == 0 then [EmptyStatePanel] else CardNodes(words)
  }

  /**
   * The empty list shows the empty-state panel alone; any other list shows exactly
   * one card per word, in input order, and no panel.
   */
  lemma WordListViewShape(words: seq<Word>)
    ensures |words| == 0 ==> WordListView(words) == [EmptyStatePanel]
    ensures |words| > 0 ==> (
      && |WordListView(words)| == |words|
      && EmptyStatePanel !in WordListView(words)
      && forall i :: 0 <= i < |words| ==> WordListView(words)[i] == CardNode(CardOf(words[i])))
  {
  }

  // ------------------------------------------------------------ lesson buttons

  /** A lesson button: its element id, its label, the level its click loads, and the `active` class. */
  datatype LessonButton = LessonButton(domId: string, text: string, level: int, active: bool)

  const ButtonIdPrefix := "lesson-btn-"
  const ButtonLabelPrefix := "Lesson - "

  function ButtonId(level: int): string {
    ButtonIdPrefix + IntToString(level)
  }

  function ButtonOf(l: Lesson): (b: LessonButton)
    ensures b.level == l.levelNo && !b.active
  {
    LessonButton(ButtonId(l.levelNo), ButtonLabelPrefix + IntToString(l.levelNo), l.levelNo, false)
  }

  /** The buttons the lesson list renders into: one per lesson, in order, none of them active. */
  function LessonButtons(lessons: seq<Lesson>): (r: seq<LessonButton>)
    ensures |r| == |lessons| && ActiveSet(r) == {}
    ensures forall i :: 0 <= i < |r| ==> r[i].level == lessons[i].levelNo
  {
    seq(|lessons|, i requires 0 <= i < |lessons| => ButtonOf(lessons[i]))
  }

  /** A button's id and its label both name exactly its own level. */
  lemma ButtonNamesItsLevel(l: Lesson, level: int)
    ensures ButtonOf(l).domId == ButtonId(level) <==> l.levelNo == level
    ensures ButtonOf(l).text == ButtonLabelPrefix + IntToString(level) <==> l.levelNo == level
  {
    PrefixedIntInjective(ButtonIdPrefix, l.levelNo, level);
    PrefixedIntInjective(ButtonLabelPrefix, l.levelNo, level);
  }

  /** `document.getElementById(id)` among the buttons: the first one in document order. */
  function FindById(bs: seq<LessonButton>, id: string): (r: Option<nat>)
    ensures r.Some? ==> (
      && r.value < |bs| && bs[r.value].domId == id
      && forall j :: 0 <= j < r.value ==> bs[j].domId != id)
    ensures r.None? ==> forall j :: 0 <= j < |bs| ==> bs[j].domId != id
  {
    if bs == [] then None
    else if bs[0].domId == id then Some(0)
    else match FindById(bs[1..], id)
      case None => None
      case Some(k) => Some(k + 1)
  }

  /**
   * Among rendered lesson buttons, looking up `lesson-btn-<level>` finds a button
   * exactly when some lesson has that level, and then the first such lesson's button.
   */
  lemma {:induction false} FindLessonButton(lessons: seq<Lesson>, level: int)
    ensures FindById(LessonButtons(lessons), ButtonId(level)).Some?
      <==> exists i :: 0 <= i < |lessons| && lessons[i].levelNo == level
    ensures FindById(LessonButtons(lessons), ButtonId(level)).Some? ==>
      var k := FindById(LessonButtons(lessons), ButtonId(level)).value;
      k < |lessons| && lessons[k].levelNo == level && LessonButtons(lessons)[k].level == level
      && forall j :: 0 <= j < k ==> lessons[j].levelNo != level
  {
    var bs := LessonButtons(lessons);
    forall j | 0 <= j < |lessons|
      ensures bs[j].domId == ButtonId(level) <==> lessons[j].levelNo == level
    {
      ButtonNamesItsLevel(lessons[j], level);
    }
  }

  /** Indices of the buttons that carry the `active` class. */
  function ActiveSet(bs: seq<LessonButton>): set<nat> {
    set i: nat | i < |bs| && bs[i].active
  }

  /** Same buttons, same order, same ids, labels and levels. */
  predicate SameButtons(bs: seq<LessonButton>, bs': seq<LessonButton>) {
    |bs| == |bs'| && forall i :: 0 <= i < |bs| ==>
      bs'[i].domId == bs[i].domId && bs'[i].text == bs[i].text && bs'[i].level == bs[i].level
  }

  /** Every lesson button with the `active` class removed, and nothing else about them changed. */
  function Deactivated(bs: seq<LessonButton>): (r: seq<LessonButton>)
    ensures SameButtons(bs, r) && ActiveSet(r) == {}
  {
    seq(|bs|, i requires 0 <= i < |bs| => bs[i].(active := false))
  }

  /**
   * The lesson buttons after a lesson click: all deactivated, then the first
   * button with id `lesson-btn-<level>` activated, if there is one.
   */
  function SelectLesson(bs: seq<LessonButton>, level: int): (r: seq<LessonButton>)
    ensures SameButtons(bs, r) && |ActiveSet(r)| <= 1
  {
    var cleared := Deactivated(bs);
    match FindById(bs, ButtonId(level))
    case None => cleared
    case Some(k) =>
      var r := cleared[k := cleared[k].(active := true)];
      assert ActiveSet(r) == {k} by {
        assert forall i: nat :: i < |r| ==> (r[i].active <==> i == k);
      }
      r
  }

  /** After a lesson click exactly the clicked button is active, and nothing else about the buttons changes. */
  lemma SelectIsExclusive(bs: seq<LessonButton>, level: int)
    ensures SameButtons(bs, SelectLesson(bs, level))
    ensures match FindById(bs, ButtonId(level))
      case None => ActiveSet(SelectLesson(bs, level)) == {}
      case Some(k) => ActiveSet(SelectLesson(bs, level)) == {k}
  {
  }

  /** Clicking a rendered lesson button leaves exactly that button active, and it loads its own level. */
  lemma ClickedLessonIsOnlyActive(lessons: seq<Lesson>, i: nat)
    requires i < |lessons|
    ensures var level := lessons[i].levelNo;
      exists k :: ActiveSet(SelectLesson(LessonButtons(lessons), level)) == {k}
        && k < |lessons| && LessonButtons(lessons)[k].level == level
  {
    var level := lessons[i].levelNo;
    FindLessonButton(lessons, level);
    SelectIsExclusive(LessonButtons(lessons), level);
  }

  // ------------------------------------------------------------ synonym pills

  /** The markup of the synonym row: pill-shaped labels and the single spaces between them. */
  datatype Markup = Pill(text: string) | Space

  /** `xs.join(sep)` */
  function Join<T>(xs: seq<T>, sep: T): (r: seq<T>)
    ensures |xs| == 0 ==> r == []
    ensures |xs| > 0 ==> |r| == 2 * |xs| - 1
  {
    if |xs| <= 1 then xs else [xs[0], sep] + Join(xs[1..], sep)
  }

  /** The joined elements stand at the even positions, in order, and the separator at the odd ones. */
  lemma {:induction false} JoinLayout<T>(xs: seq<T>, sep: T, i: nat)
    requires i < |Join(xs, sep)|
    ensures Join(xs, sep)[i] == if i % 2 == 0 then xs[i / 2] else sep
  {
    if |xs| > 1 && i >= 2 {
      JoinLayout(xs[1..], sep, i - 2);
    }
  }

  /** `createElements(arr)`: one pill per synonym joined by single spaces. */
  function CreateElements(arr: seq<string>): (r: seq<Markup>)
    ensures arr == [] ==> r == []
    ensures arr != [] ==> |r| == 2 * |arr| - 1
  {
    Join(seq(|arr|, i requires 0 <= i < |arr| => Pill(arr[i])), Space)
  }

  /** The i-th synonym is the pill at position 2i, and every odd position is a space. */
  lemma CreateElementsLayout(arr: seq<string>, i: nat)
    requires i < |CreateElements(arr)|
    ensures CreateElements(arr)[i] == if i % 2 == 0 then Pill(arr[i / 2]) else Space
  {
    JoinLayout(seq(|arr|, i requires 0 <= i < |arr| => Pill(arr[i])), Space, i);
  }

  /** The labels of the pills, in order. */
  function Labels(ms: seq<Markup>): seq<string> {
    if ms == [] then []
    else (if ms[0].Pill? then [ms[0].text] else []) + Labels(ms[1..])
  }

  /** The number of spaces. */
  function Spaces(ms: seq<Markup>): nat {
    if ms == [] then 0 else (if ms[0].Space? then 1 else 0) + Spaces(ms[1..])
  }

  lemma CreateElementsStep(arr: seq<string>)
    requires |arr| > 1
    ensures CreateElements(arr) == [Pill(arr[0]), Space] + CreateElements(arr[1..])
  {
    var pills := seq(|arr|, i requires 0 <= i < |arr| => Pill(arr[i]));
    assert pills[1..] == seq(|arr| - 1, i requires 0 <= i < |arr| - 1 => Pill(arr[1..][i]));
  }

  /** Reading the labels back from the pill row gives the synonyms again, in their given order. */
  lemma {:induction false} CreateElementsRoundTrip(arr: seq<string>)
    ensures Labels(CreateElements(arr)) == arr
  {
    if |arr| > 1 {
      var r := CreateElements(arr);
      CreateElementsStep(arr);
      CreateElementsRoundTrip(arr[1..]);
      assert r[1..] == [Space] + CreateElements(arr[1..]);
      assert r[1..][1..] == CreateElements(arr[1..]);
    } else if |arr| == 1 {
      assert CreateElements(arr) == [Pill(arr[0])];
      assert Labels(CreateElements(arr)) == [arr[0]] + Labels([]);
    }
  }

  /** n synonyms are separated by exactly n - 1 spaces. */
  lemma {:induction false} CreateElementsSpaces(arr: seq<string>)
    requires arr != []
    ensures Spaces(CreateElements(arr)) == |arr| - 1
  {
    if |arr| > 1 {
      var r := CreateElements(arr);
      CreateElementsStep(arr);
      CreateElementsSpaces(arr[1..]);
      assert r[1..] == [Space] + CreateElements(arr[1..]);
      assert r[1..][1..] == CreateElements(arr[1..]);
    } else {
      assert CreateElements(arr) == [Pill(arr[0])];
    }
  }

  // ------------------------------------------------------------- detail view

  /** The word-detail modal: headline word and phonetic, meaning, example sentence, synonym row. */
  datatype DetailView = DetailView(
    word: string,
    pronunciation: string,
    meaning: string,
    sentence: string,
    synonyms: seq<Markup>)

  /**
   * `displayWordDetails(word)`: the detail view with no fallbacks (a missing field
   * shows as "undefined" or "null"); None when `createElements` throws because
   * the synonyms array is missing, in which case nothing is shown.
   */
  function DetailOf(w: Word): (r: Option<DetailView>)
    ensures r.Some? <==> w.synonyms.Some?
    ensures r.Some? ==> Labels(r.value.synonyms) == w.synonyms.value
    ensures r.Some? ==> (
      && r.value.word == Interpolate(w.word)
      && r.value.pronunciation == Interpolate(w.pronunciation)
      && r.value.meaning == Interpolate(w.meaning)
      && r.value.sentence == Interpolate(w.sentence))
  {
    match w.synonyms
    case None => None
    case Some(syn) =>
      CreateElementsRoundTrip(syn);
      Some(DetailView(Interpolate(w.word), Interpolate(w.pronunciation),
                      Interpolate(w.meaning), Interpolate(w.sentence),
                      CreateElements(syn)))
  }

  /** Unlike a card, the detail view has no placeholders: a missing word shows as the text "undefined". */
  lemma DetailHasNoFallbacks(w: Word)
    requires w.word == Undefined && w.synonyms.Some?
    ensures DetailOf(w).value.word == "undefined"
    ensures CardOf(w).headline == NoWordText
  {
  }
}
