/** The game-setup screen: a category card, a difficulty card, a question
    count stepper with a slider, a "more categories" dropdown, and the start
    button that hands the chosen options to the quiz. */
module Selection {
  import opened Wrappers

  const MinCount: int := 5
  const MaxCount: int := 50
  const CountStep: int := 5
  const InitialCount: int := 10
  /** The initial category id is drawn from [0, CategoryIdRange). */
  const CategoryIdRange: int := 25

  /** The difficulty ids the three difficulty cards set. */
  const DifficultyIds: seq<string> := ["easy", "medium", "hard"]

  /** A category as the categories endpoint lists it (its numeric id already
      converted from the listed one). */
  datatype Category = Category(id: int, name: string)

  /** The options record given to the game context and persisted. */
  datatype GameOptions = GameOptions(category: string, difficulty: string, questionCount: int, id: int, amount: int)

  /** A count the stepper and the slider keep: a multiple of 5 in [5, 50]. */
  predicate ValidCount(c: int) {
    MinCount <= c <= MaxCount && c % CountStep == 0
  }

  /** The minus button: `Math.max(5, count - 5)`. */
  function Decrease(c: int): (r: int)
    ensures r >= MinCount
    ensures r == c - CountStep || r == MinCount
    ensures r <= c || c < MinCount
    ensures r >= c - CountStep
    ensures ValidCount(c) ==> ValidCount(r)
  {
    if c - CountStep >= MinCount then c - CountStep else MinCount
  }

  /** The plus button: `Math.min(50, count + 5)`. */
  function Increase(c: int): (r: int)
    ensures r <= MaxCount
    ensures r == c + CountStep || r == MaxCount
    ensures r >= c || c > MaxCount
    ensures r <= c + CountStep
    ensures ValidCount(c) ==> ValidCount(r)
  {
    if c + CountStep <= MaxCount then c + CountStep else MaxCount
  }

  /** One use of the count controls; the slider (min 5, max 50, step 5) can
      only report values on its scale. */
  datatype CountInput = Minus | Plus | Slide(value: int)

  function OnSliderScale(inp: CountInput): (b: bool)
    ensures b && inp.Slide? ==> MinCount <= inp.value <= MaxCount && inp.value % CountStep == 0
    ensures !b ==> inp.Slide?
  {
    inp.Slide? ==> ValidCount(inp.value)
  }

  function ApplyCount(c: int, inp: CountInput): int {
    match inp
    case Minus => Decrease(c)
    case Plus => Increase(c)
    case Slide(v) => v
  }

  function RunCount(c: int, inputs: seq<CountInput>): int
    decreases |inputs|
  {
    if inputs == [] then c else RunCount(ApplyCount(c, inputs[0]), inputs[1..])
  }

  /** Starting from any valid count, any use of the controls keeps it valid. */
  lemma {:induction false} RunCountKeepsValid(c: int, inputs: seq<CountInput>)
    requires ValidCount(c)
    requires forall k :: 0 <= k < |inputs| ==> OnSliderScale(inputs[k])
    ensures ValidCount(RunCount(c, inputs))
    decreases |inputs|
  {
    if inputs != [] {
      assert OnSliderScale(inputs[0]);
      var c' := ApplyCount(c, inputs[0]);
      assert ValidCount(c');
      assert forall k :: 0 <= k < |inputs[1..]| ==> OnSliderScale(inputs[1..][k]) by {
        forall k | 0 <= k < |inputs[1..]| ensures OnSliderScale(inputs[1..][k]) {
          assert inputs[1..][k] == inputs[k + 1];
        }
      }
      RunCountKeepsValid(c', inputs[1..]);
    }
  }

  /** From the initial 10, the count is always a multiple of 5 in [5, 50]. */
  lemma CountAlwaysValid(inputs: seq<CountInput>)
    requires forall k :: 0 <= k < |inputs| ==> OnSliderScale(inputs[k])
    ensures ValidCount(RunCount(InitialCount, inputs))
  {
    RunCountKeepsValid(InitialCount, inputs);
  }

  /** `handleStartGame`'s guard and record: nothing unless both a category and
      a difficulty are chosen; otherwise the record carries the count as both
      `questionCount` and `amount`, and the category id as `id`. */
  function StartOptions(category: Option<string>, difficulty: Option<string>, count: int, categoryId: int): (o: Option<GameOptions>)
    ensures o.Some? <==> Truthy(category) && Truthy(difficulty)
    ensures o.Some? ==> o.value.questionCount == count && o.value.amount == count
    ensures o.Some? ==> o.value.id == categoryId
    ensures o.Some? ==> o.value.category == category.value && o.value.difficulty == difficulty.value
  {
    if Truthy(category) && Truthy(difficulty) then
      Some(GameOptions(category.value, difficulty.value, count, categoryId, count))
    else
      None
  }

  class SelectionScreen {
    var selectedCategory: Option<string>
    var selectedCategoryId: int
    var selectedDifficulty: Option<string>
    var questionCount: int
    var showDropdown: bool
    /** What `setGameOptions` last put in the game context. */
    var contextOptions: Option<GameOptions>
    /** What was last written under "Quiz-Options" in local storage. */
    var storedOptions: Option<GameOptions>
    /** Whether the router was sent to the quiz. */
    var toQuiz: bool

    ghost predicate Valid()
      reads this
    {
      && ValidCount(questionCount)
      && (selectedDifficulty.Some? ==> selectedDifficulty.value in DifficultyIds)
      && contextOptions == storedOptions
      && (toQuiz ==> contextOptions.Some?)
    }

    /** `randomId` stands for `Math.floor(Math.random() * 25)`. */
    constructor (randomId: int)
      requires 0 <= randomId < CategoryIdRange
      ensures Valid()
      ensures selectedCategory == None && selectedDifficulty == None
      ensures selectedCategoryId == randomId && questionCount == InitialCount
      ensures !showDropdown && contextOptions == None && !toQuiz
    {
      selectedCategory := None;
      selectedCategoryId := randomId;
      selectedDifficulty := None;
      questionCount := InitialCount;
      showDropdown := false;
      contextOptions := None;
      storedOptions := None;
      toQuiz := false;
    }

    method MinusClicked()
      requires Valid()
      modifies this`questionCount
      ensures Valid() && questionCount == Decrease(old(questionCount))
    {
      questionCount := if questionCount - CountStep >= MinCount then questionCount - CountStep else MinCount;
    }

    method PlusClicked()
      requires Valid()
      modifies this`questionCount
      ensures Valid() && questionCount == Increase(old(questionCount))
    {
      questionCount := if questionCount + CountStep <= MaxCount then questionCount + CountStep else MaxCount;
    }

    method SliderChanged(value: int)
      requires Valid() && ValidCount(value)
      modifies this`questionCount
      ensures Valid() && questionCount == value
    {
      questionCount := value;
    }

    /** Clicking a category card sets both its name and its id. */
    method CategoryClicked(c: Category)
      requires Valid()
      modifies this`selectedCategory, this`selectedCategoryId
      ensures Valid() && selectedCategory == Some(c.name) && selectedCategoryId == c.id
    {
      selectedCategory := Some(c.name);
      selectedCategoryId := c.id;
    }

    method DifficultyClicked(d: string)
      requires Valid() && d in DifficultyIds
      modifies this`selectedDifficulty
      ensures Valid() && selectedDifficulty == Some(d)
    {
      selectedDifficulty := Some(d);
    }

    method DropdownToggled()
      modifies this`showDropdown
      ensures showDropdown == !old(showDropdown)
    {
      showDropdown := !showDropdown;
    }

    method DropdownClosed()
      modifies this`showDropdown
      ensures !showDropdown
    {
      showDropdown := false;
    }

    /** Toggling the dropdown twice restores it. */
    method ToggleTwice()
      modifies this`showDropdown
      ensures showDropdown == old(showDropdown)
    {
      DropdownToggled();
      DropdownToggled();
    }

    /** `handleStartGame`: with a category and a difficulty chosen, the same
        record goes to the game context and to local storage, and the router
        moves to the quiz; otherwise nothing happens. */
    method StartGame() returns (started: bool)
      requires Valid()
      modifies this`contextOptions, this`storedOptions, this`toQuiz
      ensures Valid()
      ensures started <==> Truthy(selectedCategory) && Truthy(selectedDifficulty)
      ensures started ==> contextOptions == storedOptions
                          == StartOptions(selectedCategory, selectedDifficulty, questionCount, selectedCategoryId)
                          && toQuiz
      ensures !started ==> contextOptions == old(contextOptions) && storedOptions == old(storedOptions)
                           && toQuiz == old(toQuiz)
    {
      started := false;
      if Truthy(selectedCategory) && Truthy(selectedDifficulty) {
        var options := GameOptions(selectedCategory.value, selectedDifficulty.value, questionCount,
                                   selectedCategoryId, questionCount);
        contextOptions := Some(options);
        storedOptions := Some(options);
        toQuiz := true;
        started := true;
      }
    }
  }
}
