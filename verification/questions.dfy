/** The question list of the form builder and the pure transformations its
    handlers apply to it: append, update by id, delete by id, drag-and-drop move
    with renumbering, option-text parsing and the renumbering done on submit. */
module Questions {

  import opened Wrappers
  import Strings
  import Seqs

  /** The types offered by the builder's selector (`text`, `mcq`, `rating`) and the
      two more a stored question may carry (`textarea`, `email`). */
  datatype QuestionType = Text | Mcq | Rating | Textarea | Email

  /** One question as the builder edits it. `kind` is the TypeScript field `type`
      and `question` holds the question text. */
  datatype Question = Question(
    id: string,
    kind: QuestionType,
    question: string,
    required: bool,
    options: Option<seq<string>>,
    order: int)

  /** A `Partial<Question>` passed to `updateQuestion`: `None` is a field left out. */
  datatype QuestionPatch = QuestionPatch(
    id: Option<string>,
    kind: Option<QuestionType>,
    question: Option<string>,
    required: Option<bool>,
    options: Option<seq<string>>,
    order: Option<int>)

  /** The patch that sets only the options, as the option text area sends it. */
  function OptionsPatch(options: seq<string>): QuestionPatch {
    QuestionPatch(None, None, None, None, Some(options), None)
  }

  /** `{ ...q, ...u }`: a field present in the patch takes the patch's value, every
      other field keeps the question's. */
  function Merge(q: Question, u: QuestionPatch): (r: Question)
    ensures r.id == (if u.id.Some? then u.id.value else q.id)
    ensures r.kind == (if u.kind.Some? then u.kind.value else q.kind)
    ensures r.question == (if u.question.Some? then u.question.value else q.question)
    ensures r.required == (if u.required.Some? then u.required.value else q.required)
    ensures r.options == (if u.options.Some? then u.options else q.options)
    ensures r.order == (if u.order.Some? then u.order.value else q.order)
  {
    Question(
      u.id.GetOr(q.id),
      u.kind.GetOr(q.kind),
      u.question.GetOr(q.question),
      u.required.GetOr(q.required),
      if u.options.Some? then u.options else q.options,
      u.order.GetOr(q.order))
  }

  /** Merging the same patch twice is merging it once. */
  lemma MergeIdempotent(q: Question, u: QuestionPatch)
    ensures Merge(Merge(q, u), u) == Merge(q, u)
  {
  }

  // ---------------------------------------------------------------------------
  // Ordering

  /** The `order` fields are exactly 1..n in list position. */
  predicate IsDense(qs: seq<Question>) {
    forall k | 0 <= k < |qs| :: qs[k].order == k + 1
  }

  /** The list with every `order` field blanked: what a question is apart from
      its number. */
  function Unnumbered(qs: seq<Question>): (r: seq<Question>)
    ensures |r| == |qs|
  {
    seq(|qs|, k requires 0 <= k < |qs| => qs[k].(order := 0))
  }

  /** `qs.map((q, index) => ({ ...q, order: index + 1 }))`: densely numbered, and
      otherwise the same questions in the same sequence. */
  function Renumber(qs: seq<Question>): (r: seq<Question>)
    ensures |r| == |qs|
    ensures IsDense(r)
    ensures Unnumbered(r) == Unnumbered(qs)
  {
    seq(|qs|, k requires 0 <= k < |qs| => qs[k].(order := k + 1))
  }

  /** Renumbering leaves a list alone exactly when it is already dense. */
  lemma RenumberFixesDense(qs: seq<Question>)
    ensures Renumber(qs) == qs <==> IsDense(qs)
  {
    if IsDense(qs) {
      assert forall k | 0 <= k < |qs| :: Renumber(qs)[k] == qs[k];
    }
  }

  // ---------------------------------------------------------------------------
  // addQuestion, updateQuestion, deleteQuestion

  /** The list after `addQuestion` with a fresh id. */
  function AddQuestion(qs: seq<Question>, freshId: string): (r: seq<Question>)
    ensures |r| == |qs| + 1 && r[..|qs|] == qs
    ensures r[|qs|].id == freshId && r[|qs|].kind == Text && r[|qs|].question == ""
    ensures !r[|qs|].required && r[|qs|].options == None && r[|qs|].order == |qs| + 1
  {
    qs + [Question(freshId, Text, "", false, None, |qs| + 1)]
  }

  /** Appending to a densely numbered list keeps it dense. */
  lemma AddKeepsDense(qs: seq<Question>, freshId: string)
    requires IsDense(qs)
    ensures IsDense(AddQuestion(qs, freshId))
  {
    var r := AddQuestion(qs, freshId);
    forall k | 0 <= k < |r| ensures r[k].order == k + 1 {
      if k < |qs| {
        assert r[k] == r[..|qs|][k] == qs[k];
      }
    }
  }

  /** The list after `updateQuestion(id, u)`. */
  function UpdateById(qs: seq<Question>, id: string, u: QuestionPatch): (r: seq<Question>)
    ensures |r| == |qs|
    ensures forall k | 0 <= k < |qs| && qs[k].id != id :: r[k] == qs[k]
    ensures forall k | 0 <= k < |qs| && qs[k].id == id :: r[k] == Merge(qs[k], u)
  {
    Seqs.MapWhere((q: Question) => q.id == id, (q: Question) => Merge(q, u), qs)
  }

  /** An update that touches neither `id` nor `order` keeps every id and the
      numbering, so it keeps a dense list dense. */
  lemma UpdateKeepsNumbering(qs: seq<Question>, id: string, u: QuestionPatch)
    requires u.id.None? && u.order.None?
    ensures forall k | 0 <= k < |qs| ::
      UpdateById(qs, id, u)[k].id == qs[k].id && UpdateById(qs, id, u)[k].order == qs[k].order
    ensures IsDense(qs) ==> IsDense(UpdateById(qs, id, u))
  {
    var r := UpdateById(qs, id, u);
    forall k | 0 <= k < |qs| ensures r[k].id == qs[k].id && r[k].order == qs[k].order {
      if qs[k].id == id {
        assert r[k] == Merge(qs[k], u);
      }
    }
  }

  /** Applying the same update twice is applying it once, when it does not rename. */
  lemma UpdateIdempotent(qs: seq<Question>, id: string, u: QuestionPatch)
    requires u.id.None?
    ensures UpdateById(UpdateById(qs, id, u), id, u) == UpdateById(qs, id, u)
  {
    var once := UpdateById(qs, id, u);
    var twice := UpdateById(once, id, u);
    forall k | 0 <= k < |qs| ensures twice[k] == once[k] {
      if qs[k].id == id {
        MergeIdempotent(qs[k], u);
      }
    }
  }

  /** The test `q => q.id !== id` of `deleteQuestion`. */
  function NotId(id: string): Question -> bool {
    (q: Question) => q.id != id
  }

  /** The list after `deleteQuestion(id)`: every question with that id is gone, the
      others stay, unchanged and in their original order (no renumbering). */
  function DeleteById(qs: seq<Question>, id: string): (r: seq<Question>)
    ensures forall q :: q in r <==> q in qs && q.id != id
    ensures Seqs.IsSubsequence(r, qs)
    ensures forall q :: multiset(r)[q] == if q.id != id then multiset(qs)[q] else 0
  {
    Seqs.FilterSpec(NotId(id), qs);
    Seqs.Filter(NotId(id), qs)
  }

  /** Deleting a just-added question gives back the list before the add. */
  lemma DeleteUndoesAdd(qs: seq<Question>, freshId: string)
    requires forall k | 0 <= k < |qs| :: qs[k].id != freshId
    ensures DeleteById(AddQuestion(qs, freshId), freshId) == qs
  {
    var added := Question(freshId, Text, "", false, None, |qs| + 1);
    Seqs.FilterConcat(NotId(freshId), qs, [added]);
    Seqs.FilterKeepsAll(NotId(freshId), qs);
  }

  /** Deleting does not renumber: removing the first of two densely numbered
      questions leaves the survivor numbered 2. */
  lemma DeleteLeavesGap(a: Question, b: Question)
    requires a.id != b.id && a.order == 1 && b.order == 2
    ensures DeleteById([a, b], a.id) == [b]
    ensures !IsDense(DeleteById([a, b], a.id))
  {
    assert [a, b][1..] == [b];
    assert [b][1..] == [];
  }

  // ---------------------------------------------------------------------------
  // Drag and drop

  predicate HasId(qs: seq<Question>, id: string) {
    exists k | 0 <= k < |qs| :: qs[k].id == id
  }

  /** `items.findIndex(item => item.id === id)` for an id that is present. */
  function IndexOfId(qs: seq<Question>, id: string): (i: nat)
    requires HasId(qs, id)
    ensures i < |qs| && qs[i].id == id
    ensures forall k | 0 <= k < i :: qs[k].id != id
  {
    Seqs.FirstIndex(qs, (q: Question) => q.id, id)
  }

  /** The list after `handleDragEnd` for a drop of `activeId` onto `overId`. When the
      ids differ both are in the list, because the sortable items are the question
      ids. */
  function DragEnd(qs: seq<Question>, activeId: string, overId: string): (r: seq<Question>)
    requires activeId != overId ==> HasId(qs, activeId) && HasId(qs, overId)
    ensures |r| == |qs|
    ensures activeId == overId ==> r == qs
    ensures activeId != overId ==> IsDense(r)
  {
    if activeId == overId then qs
    else Renumber(Seqs.Move(qs, IndexOfId(qs, activeId), IndexOfId(qs, overId)))
  }

  /** Blanking the numbers commutes with a move. */
  lemma UnnumberedMove(qs: seq<Question>, from: nat, to: nat)
    requires from < |qs| && to < |qs|
    ensures Unnumbered(Seqs.Move(qs, from, to)) == Seqs.Move(Unnumbered(qs), from, to)
  {
    var m := Seqs.Move(qs, from, to);
    var u := Unnumbered(qs);
    forall k | 0 <= k < |qs| ensures Unnumbered(m)[k] == Seqs.Move(u, from, to)[k] {
      assert m[k] == qs[Seqs.MovedFrom(from, to, k)];
    }
  }

  /** A drag between two different questions: the dragged question lands at the
      index the target had, the other questions keep their relative order, nothing
      but the numbers changes (the result is a permutation of the input), and the
      numbers are 1..n. */
  lemma DragEndMoves(qs: seq<Question>, activeId: string, overId: string)
    requires activeId != overId && HasId(qs, activeId) && HasId(qs, overId)
    ensures var r := DragEnd(qs, activeId, overId);
            var from, to := IndexOfId(qs, activeId), IndexOfId(qs, overId);
            && IsDense(r)
            && Unnumbered(r)[to] == Unnumbered(qs)[from]
            && Seqs.RemoveAt(Unnumbered(r), to) == Seqs.RemoveAt(Unnumbered(qs), from)
            && multiset(Unnumbered(r)) == multiset(Unnumbered(qs))
  {
    var from, to := IndexOfId(qs, activeId), IndexOfId(qs, overId);
    UnnumberedMove(qs, from, to);
  }

  // ---------------------------------------------------------------------------
  // Multiple-choice options

  /** The test `opt => opt.trim()`: the line is not all whitespace, which is when
      its trim is a non-empty, truthy string. */
  predicate NotBlankLine(line: string) {
    !Strings.IsBlank(line)
  }

  /** `NotBlankLine` is the truthiness of `line.trim()`. */
  lemma NotBlankLineIsTrimTest(line: string)
    ensures NotBlankLine(line) <==> Strings.Trim(line) != ""
  {
    Strings.TrimEmptyIffBlank(line);
  }

  /** `text.split('\n').filter(opt => opt.trim())`: the lines of the text whose trim
      is non-empty, in order and not trimmed themselves. */
  function ParseOptions(text: string): (r: seq<string>)
    ensures Seqs.IsSubsequence(r, Strings.Split(text, '\n'))
    ensures forall o :: o in r <==> o in Strings.Split(text, '\n') && NotBlankLine(o)
    ensures forall o :: multiset(r)[o] == if NotBlankLine(o) then multiset(Strings.Split(text, '\n'))[o] else 0
  {
    Seqs.FilterSpec(NotBlankLine, Strings.Split(text, '\n'));
    Seqs.Filter(NotBlankLine, Strings.Split(text, '\n'))
  }

  /** `question.options?.join('\n') || ''`: the text the option area shows. */
  function OptionsText(options: Option<seq<string>>): string {
    if options.Some? then Strings.Join(options.value, "\n") else ""
  }

  /** No parsed option is blank and none contains a line break. */
  lemma ParsedOptionsNotBlank(text: string)
    ensures forall o | o in ParseOptions(text) :: Strings.Trim(o) != "" && !Strings.IsBlank(o) && '\n' !in o
  {
    forall o | o in ParseOptions(text) ensures Strings.Trim(o) != "" {
      NotBlankLineIsTrimTest(o);
    }
  }

  /** Showing a list of non-blank single-line options and parsing the shown text
      gives the same list back. */
  lemma OptionsRoundTrip(options: seq<string>)
    requires forall k | 0 <= k < |options| :: '\n' !in options[k] && !Strings.IsBlank(options[k])
    ensures ParseOptions(OptionsText(Some(options))) == options
  {
    if options == [] {
      assert Strings.Split("", '\n') == [""];
      assert Seqs.Filter(NotBlankLine, [""]) == [];
    } else {
      Strings.SplitJoin(options, '\n');
      Seqs.FilterKeepsAll(NotBlankLine, options);
    }
  }
}
