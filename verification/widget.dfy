/**
 * The page state the script updates in place and the event handlers that update it:
 * the lesson-button container, the word container, the spinner, and the details modal.
 */
module Widget {
  import opened Wrappers
  import opened View
  import opened Search

  class Page {
    /** Children of the lesson container, in document order. */
    var lessonButtons: seq<LessonButton>
    /** Children of the word container, in document order. */
    var wordNodes: seq<WordNode>
    /** The `hidden` class on the spinner and on the word container. */
    var spinnerHidden: bool
    var wordContainerHidden: bool
    /** Contents of the details box, and whether the modal has been opened. */
    var details: Option<DetailView>
    var modalOpen: bool

    /** The spinner and the word container are shown alternately. */
    predicate SpinnerExclusive()
      reads this
    {
      spinnerHidden != wordContainerHidden
    }

    /** A page as loaded, before any script has run; its visibility classes come from the host markup. */
    constructor (spinnerHidden0: bool, wordContainerHidden0: bool)
      ensures lessonButtons == [] && wordNodes == [] && details == None && !modalOpen
      ensures spinnerHidden == spinnerHidden0 && wordContainerHidden == wordContainerHidden0
    {
      lessonButtons := [];
      wordNodes := [];
      spinnerHidden := spinnerHidden0;
      wordContainerHidden := wordContainerHidden0;
      details := None;
      modalOpen := false;
    }

    /** `manageSpinner(status)`: show the spinner and hide the words, or the reverse. */
    method ManageSpinner(status: bool)
      modifies this`spinnerHidden, this`wordContainerHidden
      ensures spinnerHidden == !status && wordContainerHidden == status
      ensures SpinnerExclusive()
    {
      if status {
        spinnerHidden := false;
        wordContainerHidden := true;
      } else {
        wordContainerHidden := false;
        spinnerHidden := true;
      }
    }

    /** `removeActive()`: strip the `active` class from every lesson button. */
    method RemoveActive()
      modifies this`lessonButtons
      ensures lessonButtons == Deactivated(old(lessonButtons))
      ensures ActiveSet(lessonButtons) == {} && SameButtons(old(lessonButtons), lessonButtons)
    {
      ghost var before := lessonButtons;
      var i := 0;
      while i < |lessonButtons|
        invariant 0 <= i <= |lessonButtons| == |before|
        invariant forall j :: 0 <= j < i ==> lessonButtons[j] == before[j].(active := false)
        invariant forall j :: i <= j < |before| ==> lessonButtons[j] == before[j]
      {
        lessonButtons := lessonButtons[i := lessonButtons[i].(active := false)];
        i := i + 1;
      }
      assert forall j: nat :: j < |lessonButtons| ==> !lessonButtons[j].active;
    }

    /**
     * `document.getElementById("lesson-btn-<level>").classList.add("active")`;
     * `found` is false when there is no such button, where the script throws.
     */
    method ActivateLessonButton(level: int) returns (found: bool)
      modifies this`lessonButtons
      ensures found == FindById(old(lessonButtons), ButtonId(level)).Some?
      ensures found ==> var k := FindById(old(lessonButtons), ButtonId(level)).value;
        lessonButtons == old(lessonButtons)[k := old(lessonButtons)[k].(active := true)]
      ensures !found ==> lessonButtons == old(lessonButtons)
    {
      match FindById(lessonButtons, ButtonId(level))
      case None =>
        found := false;
      case Some(k) =>
        lessonButtons := lessonButtons[k := lessonButtons[k].(active := true)];
        found := true;
    }

    /**
     * `displayLevelWord(words)`: clear the word container, then show the empty-state
     * panel or one card per word, and hide the spinner.
     */
    method DisplayLevelWord(words: seq<Word>)
      modifies this`wordNodes, this`spinnerHidden, this`wordContainerHidden
      ensures wordNodes == WordListView(words)
      ensures spinnerHidden && !wordContainerHidden
    {
      wordNodes := [];
      if |words| == 0 {
        wordNodes := [EmptyStatePanel];
        ManageSpinner(false);
        return;
      }
      for i := 0 to |words|
        invariant wordNodes == CardNodes(words[..i])
      {
        wordNodes := wordNodes + [CardNode(CardOf(words[i]))];
      }
      assert words[..|words|] == words;
      ManageSpinner(false);
    }

    /** `displayLesson(lessons)`: replace the lesson container's children with one button per lesson. */
    method DisplayLesson(lessons: seq<Lesson>)
      modifies this`lessonButtons
      ensures lessonButtons == LessonButtons(lessons)
    {
      lessonButtons := [];
      for i := 0 to |lessons|
        invariant lessonButtons == LessonButtons(lessons[..i])
      {
        lessonButtons := lessonButtons + [ButtonOf(lessons[i])];
      }
      assert lessons[..|lessons|] == lessons;
    }

    /**
     * `loadLevelWord(id)` with the level's words as the response (None when the
     * request or its JSON fails). The spinner is shown first; on success the
     * clicked button becomes the only active one and the words are shown. When
     * the request fails, or the button is missing and the handler throws, the
     * error is only logged and the spinner stays on.
     */
    method LoadLevelWord(id: int, response: Option<seq<Word>>)
      modifies this`lessonButtons, this`wordNodes, this`spinnerHidden, this`wordContainerHidden
      ensures SpinnerExclusive()
      ensures response.None? ==> lessonButtons == old(lessonButtons) && wordNodes == old(wordNodes)
      ensures response.Some? ==> lessonButtons == SelectLesson(old(lessonButtons), id)
      ensures var shown := response.Some? && FindById(old(lessonButtons), ButtonId(id)).Some?;
        && (shown ==> wordNodes == WordListView(response.value) && spinnerHidden)
        && (!shown ==> wordNodes == old(wordNodes) && !spinnerHidden)
    {
      ManageSpinner(true);
      if response.Some? {
        RemoveActive();
        assert FindById(lessonButtons, ButtonId(id)) == FindById(old(lessonButtons), ButtonId(id)) by {
          SameButtonsFindById(old(lessonButtons), lessonButtons, ButtonId(id));
        }
        var found := ActivateLessonButton(id);
        if found {
          DisplayLevelWord(response.value);
        }
      }
    }

    /**
     * A click on the search button with the full word list as the response: no
     * lesson button stays active, and the words whose text includes the normalised
     * query are shown. Without a response nothing else changes.
     */
    method SearchClick(input: string, response: Option<seq<Word>>)
      requires response.Some? ==> Searchable(response.value)
      modifies this`lessonButtons, this`wordNodes, this`spinnerHidden, this`wordContainerHidden
      ensures lessonButtons == Deactivated(old(lessonButtons)) && ActiveSet(lessonButtons) == {}
      ensures response.Some? ==> (
        && wordNodes == WordListView(FilterWords(response.value, SearchKey(input)))
        && spinnerHidden && !wordContainerHidden)
      ensures response.None? ==> (
        && wordNodes == old(wordNodes)
        && spinnerHidden == old(spinnerHidden) && wordContainerHidden == old(wordContainerHidden))
    {
      RemoveActive();
      var key := SearchKey(input);
      if response.Some? {
        DisplayLevelWord(FilterWords(response.value, key));
      }
    }

    /**
     * `displayWordDetails(word)`: fill the details box and open the modal; `ok` is
     * false when building the synonym row throws, and then nothing changes.
     */
    method DisplayWordDetails(w: Word) returns (ok: bool)
      modifies this`details, this`modalOpen
      ensures ok == w.synonyms.Some?
      ensures ok ==> details == DetailOf(w) && modalOpen
      ensures !ok ==> details == old(details) && modalOpen == old(modalOpen)
    {
      var view := DetailOf(w);
      if view.Some? {
        details := view;
        modalOpen := true;
        ok := true;
      } else {
        ok := false;
      }
    }

    /** `loadWordDetail(id)` with the record as the response: every failure is caught, and then no modal opens. */
    method LoadWordDetail(response: Option<Word>)
      modifies this`details, this`modalOpen
      ensures response.Some? && response.value.synonyms.Some? ==> details == DetailOf(response.value) && modalOpen
      ensures !(response.Some? && response.value.synonyms.Some?) ==>
        details == old(details) && modalOpen == old(modalOpen)
    {
      if response.Some? {
        var _ := DisplayWordDetails(response.value);
      }
    }
  }

  /** Changing only the `active` classes does not change which button an id finds. */
  lemma SameButtonsFindById(bs: seq<LessonButton>, bs': seq<LessonButton>, id: string)
    requires SameButtons(bs, bs')
    ensures FindById(bs', id) == FindById(bs, id)
  {
  }

  /**
   * Start-up renders the lessons; clicking the i-th lesson's button and receiving
   * its words leaves exactly one active button, the one for that lesson's level,
   * and hides the spinner. The results are the set of active buttons, the word
   * container's children and whether the spinner is hidden.
   */
  method StartupThenLessonClick(lessons: seq<Lesson>, i: nat, words: seq<Word>)
    returns (active: set<nat>, nodes: seq<WordNode>, spinnerHidden: bool)
    requires i < |lessons|
    ensures |active| == 1
    ensures forall k :: k in active ==> k < |lessons| && lessons[k].levelNo == lessons[i].levelNo
    ensures nodes == WordListView(words)
    ensures spinnerHidden
  {
    var page := new Page(true, false);
    page.DisplayLesson(lessons);
    var level := lessons[i].levelNo;
    FindLessonButton(lessons, level);
    SelectIsExclusive(LessonButtons(lessons), level);
    page.LoadLevelWord(level, Some(words));
    active := ActiveSet(page.lessonButtons);
    nodes := page.wordNodes;
    spinnerHidden := page.spinnerHidden;
  }
}
