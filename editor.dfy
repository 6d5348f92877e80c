/**
 * The quiz editor of the host page (frontend/src/components/Host.jsx): the form that holds
 * a title, a description and a list of questions, the operations its buttons and inputs
 * call, the check it runs before submitting, and the request body it then sends to the
 * quiz routes. A form is a value: every operation returns the next form, as the page
 * replaces its state with a new array.
 */
module Editor {
  import opened Text
  import opened QuizRoutes
  import Scoring

  /** A choice as the editor holds it. The request body carries these same objects. */
  type Choice = ChoicePayload

  /** One question of the form: `{ content, choices, timeLimit, points }`. */
  datatype Question = Question(content: string, choices: seq<Choice>, timeLimit: int, points: int)

  /** `quizTitle`, `quizDescription` and `questions`. */
  datatype Form = Form(title: string, description: string, questions: seq<Question>)

  /** The question every new or emptied form starts with: four empty wrong choices,
      20 seconds and 1000 points. */
  function BlankQuestion(): Question {
    var c := ChoicePayload("", false);
    Question("", [c, c, c, c], Scoring.DefaultTimeLimitS, Scoring.DefaultPoints)
  }

  /** The editor never shows an empty question list. */
  predicate Editable(f: Form) {
    |f.questions| > 0
  }

  /*** The editing operations ***/

  /** `resetQuizForm`: empty title and description, one blank question. */
  function Reset(): (f: Form)
    ensures Editable(f)
    ensures IsBlank(f.title) && IsBlank(f.description)
    ensures |f.questions| == 1 && f.questions[0] == BlankQuestion()
  {
    Form("", "", [BlankQuestion()])
  }

  /** `addQuestion`: one blank question at the end, the others as they were. */
  function AddQuestion(f: Form): (g: Form)
    ensures Editable(g)
    ensures g.title == f.title && g.description == f.description
    ensures |g.questions| == |f.questions| + 1
    ensures g.questions[..|f.questions|] == f.questions
    ensures g.questions[|f.questions|] == BlankQuestion()
  {
    f.(questions := f.questions + [BlankQuestion()])
  }

  /** `removeQuestion`: the question at `index` goes, unless it is the only one left. An
      index outside the list matches nothing in `filter` and removes nothing. */
  function RemoveQuestion(f: Form, index: int): (g: Form)
    ensures Editable(f) ==> Editable(g)
    ensures g.title == f.title && g.description == f.description
    ensures |f.questions| > 1 && 0 <= index < |f.questions| ==>
              && |g.questions| == |f.questions| - 1
              && (forall k :: 0 <= k < index ==> g.questions[k] == f.questions[k])
              && (forall k :: index <= k < |g.questions| ==> g.questions[k] == f.questions[k + 1])
    ensures !(|f.questions| > 1 && 0 <= index < |f.questions|) ==> g == f
  {
    if |f.questions| > 1 && 0 <= index < |f.questions| then
      f.(questions := f.questions[..index] + f.questions[index + 1..])
    else f
  }

  /** The fields of a question that `updateQuestion` is called with. */
  datatype QuestionEdit = EditContent(content: string) | EditTimeLimit(timeLimit: int) | EditPoints(points: int)

  /** `updateQuestion`: one field of one question takes the new value. */
  function UpdateQuestion(f: Form, index: int, edit: QuestionEdit): (g: Form)
    requires 0 <= index < |f.questions|
    ensures Editable(g)
    ensures g.title == f.title && g.description == f.description
    ensures |g.questions| == |f.questions|
    ensures forall k :: 0 <= k < |f.questions| && k != index ==> g.questions[k] == f.questions[k]
    ensures var q, q' := f.questions[index], g.questions[index];
            && q'.choices == q.choices
            && q'.content == (if edit.EditContent? then edit.content else q.content)
            && q'.timeLimit == (if edit.EditTimeLimit? then edit.timeLimit else q.timeLimit)
            && q'.points == (if edit.EditPoints? then edit.points else q.points)
  {
    var q := f.questions[index];
    var q' := match edit
      case EditContent(s) => q.(content := s)
      case EditTimeLimit(t) => q.(timeLimit := t)
      case EditPoints(p) => q.(points := p);
    f.(questions := f.questions[index := q'])
  }

  /** `updateChoice` with the field `content`, the only one the page edits this way. */
  function UpdateChoice(f: Form, qi: int, ci: int, content: string): (g: Form)
    requires 0 <= qi < |f.questions| && 0 <= ci < |f.questions[qi].choices|
    ensures Editable(g)
    ensures g.title == f.title && g.description == f.description
    ensures |g.questions| == |f.questions|
    ensures forall k :: 0 <= k < |f.questions| && k != qi ==> g.questions[k] == f.questions[k]
    ensures var q, q' := f.questions[qi], g.questions[qi];
            && q'.content == q.content && q'.timeLimit == q.timeLimit && q'.points == q.points
            && |q'.choices| == |q.choices|
            && (forall k :: 0 <= k < |q.choices| && k != ci ==> q'.choices[k] == q.choices[k])
            && q'.choices[ci] == ChoicePayload(content, q.choices[ci].isCorrect)
  {
    var q := f.questions[qi];
    var q' := q.(choices := q.choices[ci := q.choices[ci].(content := content)]);
    f.(questions := f.questions[qi := q'])
  }

  /** The choices after `setCorrectChoice(_, ci)`: choice `ci` is marked correct and every
      other one wrong; the texts stay. */
  function MarkedCorrect(cs: seq<Choice>, ci: int): (r: seq<Choice>)
    ensures |r| == |cs|
    ensures forall k :: 0 <= k < |cs| ==> r[k].content == cs[k].content && (r[k].isCorrect <==> k == ci)
  {
    seq(|cs|, k requires 0 <= k < |cs| => cs[k].(isCorrect := k == ci))
  }

  /** `setCorrectChoice`: the `forEach` that sets `isCorrect = i === choiceIndex` on every
      choice of question `qi`. */
  method SetCorrectChoice(f: Form, qi: int, ci: int) returns (g: Form)
    requires 0 <= qi < |f.questions|
    ensures g == f.(questions := f.questions[qi := f.questions[qi].(choices := MarkedCorrect(f.questions[qi].choices, ci))])
  {
    var q := f.questions[qi];
    var cs := q.choices;
    var i := 0;
    while i < |cs|
      invariant 0 <= i <= |cs| && |cs| == |q.choices|
      invariant forall k :: 0 <= k < i ==> cs[k] == q.choices[k].(isCorrect := k == ci)
      invariant forall k :: i <= k < |cs| ==> cs[k] == q.choices[k]
    {
      cs := cs[i := cs[i].(isCorrect := i == ci)];
      i := i + 1;
    }
    assert cs == MarkedCorrect(q.choices, ci);
    g := f.(questions := f.questions[qi := q.(choices := cs)]);
  }

  /*** Loading a stored quiz into the form ***/

  /** One question of `GET /api/quiz/:id`, mapped as `loadQuizForEdit` maps it: a time
      limit or point value of 0 (or none) falls back to 20 or 1000, and a choice is correct
      when its stored flag is non-zero. */
  function LoadedQuestion(v: QuestionView): (q: Question)
    ensures q.content == v.content && q.timeLimit != 0 && q.points != 0
    ensures v.timeLimitS != 0 ==> q.timeLimit == v.timeLimitS
    ensures v.points != 0 ==> q.points == v.points
    ensures |q.choices| == |v.choices|
    ensures forall k :: 0 <= k < |v.choices| ==>
              q.choices[k].content == v.choices[k].content && (q.choices[k].isCorrect <==> v.choices[k].isCorrect != 0)
  {
    Question(v.content,
             seq(|v.choices|, k requires 0 <= k < |v.choices| => ChoicePayload(v.choices[k].content, v.choices[k].isCorrect != 0)),
             Scoring.OrDefault(v.timeLimitS, Scoring.DefaultTimeLimitS),
             Scoring.OrDefault(v.points, Scoring.DefaultPoints))
  }

  /** `loadQuizForEdit`: the stored questions in order, or one blank question when the quiz
      has none. */
  function LoadForEdit(title: string, description: string, views: seq<QuestionView>): (f: Form)
    ensures Editable(f)
    ensures f.title == title && f.description == description
    ensures views == [] ==> f.questions == [BlankQuestion()]
    ensures views != [] ==>
              && |f.questions| == |views|
              && forall i :: 0 <= i < |views| ==> f.questions[i] == LoadedQuestion(views[i])
  {
    if views == [] then Form(title, description, [BlankQuestion()])
    else Form(title, description, seq(|views|, i requires 0 <= i < |views| => LoadedQuestion(views[i])))
  }

  /*** Client validation and the request body ***/

  /** `c.content.trim()` is truthy, that is (Text.TrimEmptyIffBlank) the text is not blank. */
  predicate HasText(c: Choice) {
    !IsBlank(c.content)
  }

  /** `choices.filter(c => c.content.trim())`: the choices whose text is not blank, in order. */
  function Filled(cs: seq<Choice>): (r: seq<Choice>)
    ensures |r| <= |cs|
    ensures forall c :: c in r ==> c in cs && HasText(c)
  {
    if cs == [] then []
    else (if HasText(cs[0]) then [cs[0]] else []) + Filled(cs[1..])
  }

  /** The filter drops no choice that has text. */
  lemma {:induction false} FilledComplete(cs: seq<Choice>)
    ensures forall k :: 0 <= k < |cs| && HasText(cs[k]) ==> cs[k] in Filled(cs)
  {
    if cs != [] {
      FilledComplete(cs[1..]);
      assert forall k :: 1 <= k < |cs| ==> cs[k] == cs[1..][k - 1];
    }
  }

  /** A list whose choices all have text passes the filter whole. */
  lemma {:induction false} FilledAllText(cs: seq<Choice>)
    requires forall k :: 0 <= k < |cs| ==> HasText(cs[k])
    ensures Filled(cs) == cs
  {
    if cs != [] {
      assert forall k :: 0 <= k < |cs| - 1 ==> cs[1..][k] == cs[k + 1];
      FilledAllText(cs[1..]);
    }
  }

  /** Filtering again keeps everything. */
  lemma FilledTwice(cs: seq<Choice>)
    ensures Filled(Filled(cs)) == Filled(cs)
  {
    var r := Filled(cs);
    forall k | 0 <= k < |r| ensures HasText(r[k]) {
      assert r[k] in r;
    }
    FilledAllText(r);
  }

  /** What the page demands of one question: non-blank text, exactly four non-blank
      choices, and exactly one of those four marked correct. */
  predicate QuestionReady(q: Question) {
    && !IsBlank(q.content)
    && |Filled(q.choices)| == 4
    && CountCorrect(Filled(q.choices)) == 1
  }

  /** What the page demands before it submits: a non-blank title and every question ready.
      The list itself is not checked. */
  predicate ClientAccepts(f: Form) {
    !IsBlank(f.title) && forall i :: 0 <= i < |f.questions| ==> QuestionReady(f.questions[i])
  }

  /** The message the page shows; question numbers are 1-based. */
  datatype ClientVerdict = Ready | BlankTitle | BlankContent(number: nat)
                         | NotFourChoices(number: nat) | NotOneCorrect(number: nat)

  /** The check at the top of `handleCreateQuiz` and `handleUpdateQuiz`: the title, then
      the questions in order, stopping at the first that fails. */
  method ClientValidate(f: Form) returns (v: ClientVerdict)
    ensures v == Ready <==> ClientAccepts(f)
    ensures v == BlankTitle <==> IsBlank(f.title)
    ensures v.BlankContent? || v.NotFourChoices? || v.NotOneCorrect? ==>
              && !IsBlank(f.title) && 1 <= v.number <= |f.questions|
              && forall k :: 0 <= k < v.number - 1 ==> QuestionReady(f.questions[k])
    ensures v.BlankContent? ==> IsBlank(f.questions[v.number - 1].content)
    ensures v.NotFourChoices? ==>
              !IsBlank(f.questions[v.number - 1].content) && |Filled(f.questions[v.number - 1].choices)| != 4
    ensures v.NotOneCorrect? ==>
              && !IsBlank(f.questions[v.number - 1].content) && |Filled(f.questions[v.number - 1].choices)| == 4
              && CountCorrect(Filled(f.questions[v.number - 1].choices)) != 1
  {
    TrimEmptyIffBlank(f.title);
    if Trim(f.title) == [] {
      return BlankTitle;
    }
    var i := 0;
    while i < |f.questions|
      invariant 0 <= i <= |f.questions|
      invariant forall k :: 0 <= k < i ==> QuestionReady(f.questions[k])
    {
      var q := f.questions[i];
      TrimEmptyIffBlank(q.content);
      if Trim(q.content) == [] {
        return BlankContent(i + 1);
      }
      var valid := Filled(q.choices);
      if |valid| != 4 {
        return NotFourChoices(i + 1);
      }
      if CountCorrect(valid) != 1 {
        return NotOneCorrect(i + 1);
      }
      i := i + 1;
    }
    return Ready;
  }

  /** One question of the request body: trimmed text, the non-blank choices, no image. */
  function QuestionBody(q: Question): (b: QuestionPayload)
    ensures b.content == Trim(q.content) && b.imageUrl == ""
    ensures b.timeLimit == q.timeLimit && b.points == q.points
    ensures forall k :: 0 <= k < |b.choices| ==> HasText(b.choices[k])
    ensures forall k :: 0 <= k < |q.choices| && HasText(q.choices[k]) ==> q.choices[k] in b.choices
  {
    FilledComplete(q.choices);
    QuestionPayload(Trim(q.content), Filled(q.choices), "", q.timeLimit, q.points)
  }

  /** The body of `POST /api/quiz` and `PUT /api/quiz/:id`: trimmed title and description,
      never public, every question in order. */
  function Payload(f: Form): (p: QuizPayload)
    ensures p.title == Trim(f.title) && p.description == Trim(f.description) && !p.isPublic
    ensures |p.questions| == |f.questions|
    ensures forall i :: 0 <= i < |f.questions| ==> p.questions[i] == QuestionBody(f.questions[i])
  {
    QuizPayload(Trim(f.title), Trim(f.description), false,
                seq(|f.questions|, i requires 0 <= i < |f.questions| => QuestionBody(f.questions[i])))
  }

  /*** Properties ***/

  /** The server accepts one question of the body exactly when the page accepts it. */
  lemma QuestionBodyAccepted(q: Question)
    ensures QuestionAccepted(QuestionBody(q)) <==> QuestionReady(q)
  {
    TrimEmptyIffBlank(q.content);
  }

  /** The server accepts the body of a form exactly when the page accepts the form and the
      form has a question; the editor keeps the second, so a form the page lets through is
      never refused by the server's checks. */
  lemma ServerAcceptsPayload(f: Form)
    ensures ServerAccepts(Payload(f)) <==> ClientAccepts(f) && Editable(f)
  {
    var p := Payload(f);
    TrimEmptyIffBlank(f.title);
    if ServerAccepts(p) {
      forall i | 0 <= i < |f.questions| ensures QuestionReady(f.questions[i]) {
        assert QuestionAccepted(p.questions[i]);
        QuestionBodyAccepted(f.questions[i]);
      }
    }
    if ClientAccepts(f) && Editable(f) {
      forall i | 0 <= i < |p.questions| ensures QuestionAccepted(p.questions[i]) {
        assert QuestionReady(f.questions[i]);
        QuestionBodyAccepted(f.questions[i]);
      }
    }
  }

  /** With one choice marked correct and the others wrong, the non-blank choices hold one
      correct answer if that choice has text, and none otherwise. */
  lemma {:induction false} CorrectAmongFilled(cs: seq<Choice>, ci: int)
    requires 0 <= ci < |cs|
    requires forall k :: 0 <= k < |cs| ==> (cs[k].isCorrect <==> k == ci)
    ensures CountCorrect(Filled(cs)) == if HasText(cs[ci]) then 1 else 0
  {
    var head := if HasText(cs[0]) then [cs[0]] else [];
    var rest := Filled(cs[1..]);
    assert Filled(cs) == head + rest;
    CountCorrectCons(head, rest);
    if ci == 0 {
      forall c | c in rest ensures !c.isCorrect {
        var k :| 1 <= k < |cs| && cs[k] == c;
      }
      assert forall k :: 0 <= k < |rest| ==> !rest[k].isCorrect by {
        forall k | 0 <= k < |rest| ensures !rest[k].isCorrect {
          assert rest[k] in rest;
        }
      }
    } else {
      assert cs[ci] == cs[1..][ci - 1];
      CorrectAmongFilled(cs[1..], ci - 1);
    }
  }

  /** Counting correct choices over a list of at most one choice followed by more. */
  lemma CountCorrectCons(head: seq<Choice>, rest: seq<Choice>)
    requires |head| <= 1
    ensures CountCorrect(head + rest) == CountCorrect(head) + CountCorrect(rest)
  {
    if |head| == 1 {
      assert (head + rest)[0] == head[0] && (head + rest)[1..] == rest && head[1..] == [];
    } else {
      assert head + rest == rest;
    }
  }

  /** After `setCorrectChoice(qi, ci)` with four non-blank choices, question `qi` passes the
      correct-answer check; with a blank choice marked it has no correct answer at all. */
  lemma MarkedCorrectCount(cs: seq<Choice>, ci: int)
    requires 0 <= ci < |cs|
    ensures CountCorrect(Filled(MarkedCorrect(cs, ci))) == if HasText(cs[ci]) then 1 else 0
  {
    CorrectAmongFilled(MarkedCorrect(cs, ci), ci);
  }

  /** A question sent, stored, loaded and sent again is stored as the first time. */
  lemma ReopenQuestion(q: Question, orderIndex: int)
    ensures var v := NormalizedQuestion(QuestionBody(q), orderIndex);
            NormalizedQuestion(QuestionBody(LoadedQuestion(v)), orderIndex) == v
  {
    var b := QuestionBody(q);
    var v := NormalizedQuestion(b, orderIndex);
    var q' := LoadedQuestion(v);
    TrimIdempotent(q.content);
    assert q'.choices == b.choices;
    FilledTwice(q.choices);
    assert QuestionBody(q').choices == b.choices;
  }

  /** Saving a form, opening the stored quiz in the editor and saving again stores the same
      questions under the same title and description. */
  lemma ReopenAndSave(f: Form)
    requires Editable(f)
    ensures var p := Payload(f);
            var p' := Payload(LoadForEdit(p.title, p.description, Normalized(p.questions)));
            && p'.title == p.title && p'.description == p.description
            && Normalized(p'.questions) == Normalized(p.questions)
  {
    var p := Payload(f);
    var g := LoadForEdit(p.title, p.description, Normalized(p.questions));
    var p' := Payload(g);
    TrimIdempotent(f.title);
    TrimIdempotent(f.description);
    forall i | 0 <= i < |p.questions|
      ensures NormalizedQuestion(p'.questions[i], i + 1) == NormalizedQuestion(p.questions[i], i + 1)
    {
      assert p.questions[i] == QuestionBody(f.questions[i]);
      assert g.questions[i] == LoadedQuestion(NormalizedQuestion(p.questions[i], i + 1));
      assert p'.questions[i] == QuestionBody(g.questions[i]);
      ReopenQuestion(f.questions[i], i + 1);
    }
  }

  /*** Sequences of edits ***/

  /** One user action on the form. An index the page could not produce leaves the form as it
      is; the page only offers indexes of rows it shows. */
  datatype Action =
    | Add
    | RemoveAt(index: int)
    | ChangeQuestion(index: int, edit: QuestionEdit)
    | ChangeChoice(question: int, choice: int, content: string)
    | MarkCorrect(question: int, choice: int)
    | Reload(title: string, description: string, views: seq<QuestionView>)
    | Clear

  function Apply(f: Form, a: Action): Form {
    match a
    case Add => AddQuestion(f)
    case RemoveAt(index) => RemoveQuestion(f, index)
    case ChangeQuestion(index, edit) =>
      if 0 <= index < |f.questions| then UpdateQuestion(f, index, edit) else f
    case ChangeChoice(qi, ci, content) =>
      if 0 <= qi < |f.questions| && 0 <= ci < |f.questions[qi].choices| then UpdateChoice(f, qi, ci, content) else f
    case MarkCorrect(qi, ci) =>
      if 0 <= qi < |f.questions| then
        f.(questions := f.questions[qi := f.questions[qi].(choices := MarkedCorrect(f.questions[qi].choices, ci))])
      else f
    case Reload(title, description, views) => LoadForEdit(title, description, views)
    case Clear => Reset()
  }

  /** The form after a run of actions, the last action applied last. */
  function ApplyAll(f: Form, actions: seq<Action>): Form {
    if actions == [] then f
    else Apply(ApplyAll(f, actions[..|actions| - 1]), actions[|actions| - 1])
  }

  /** However the host edits a form the page showed, it keeps a question; so whenever the
      page's own check passes, the body it sends passes the server's. */
  lemma {:induction false} EditsKeepEditable(f: Form, actions: seq<Action>)
    requires Editable(f)
    ensures Editable(ApplyAll(f, actions))
    ensures ClientAccepts(ApplyAll(f, actions)) ==> ServerAccepts(Payload(ApplyAll(f, actions)))
  {
    if actions != [] {
      EditsKeepEditable(f, actions[..|actions| - 1]);
    }
    ServerAcceptsPayload(ApplyAll(f, actions));
  }
}
