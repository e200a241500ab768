/** The `delete` command for events: a display index, three kind flags that
    the last mark call decides, and an `execute` that deletes the event at
    that index of the chosen kind's filtered view. */
module DeleteEvent {
  import opened Wrappers
  import opened Events

  /** The prefix of the success message; the deleted event's text follows it. */
  const DeleteSuccessPrefix: string := "Deleted Event: "

  /** Why executing a command failed. */
  datatype CommandError =
    /** The index is past the end of the filtered view of the chosen kind;
        one message for all three kinds. */
    | InvalidEventDisplayedIndex

  /** The text shown to the user after a successful command. */
  datatype CommandResult = CommandResult(feedback: string)

  /** What a successful execution leaves behind: the updated model and the
      result shown to the user. */
  datatype Executed<E(==)> = Executed(model: Model<E>, result: CommandResult)

  datatype DeleteEventCommand = DeleteEventCommand(targetIndex: Index, flags: KindFlags) {

    /** A freshly constructed command: no kind flag is set. */
    static function New(targetIndex: Index): (r: DeleteEventCommand)
      ensures r.targetIndex == targetIndex
      ensures r.flags.Selected() == {}
      ensures r.flags.Dispatch() == Consultation
    {
      DeleteEventCommand(targetIndex, KindFlags.Cleared())
    }

    function MarkTutorial(): (r: DeleteEventCommand)
      ensures r.targetIndex == targetIndex
      ensures r.flags.Selected() == {Tutorial}
    {
      this.(flags := flags.Mark(Tutorial))
    }

    function MarkLab(): (r: DeleteEventCommand)
      ensures r.targetIndex == targetIndex
      ensures r.flags.Selected() == {Lab}
    {
      this.(flags := flags.Mark(Lab))
    }

    function MarkConsultation(): (r: DeleteEventCommand)
      ensures r.targetIndex == targetIndex
      ensures r.flags.Selected() == {Consultation}
    {
      this.(flags := flags.Mark(Consultation))
    }

    /** Runs the branch the flags select: tutorial if its flag is set, else
        lab if its flag is set, else consultation, even when no flag is set. */
    function Execute<E(==)>(model: Model<E>, render: E -> string): (r: Result<Executed<E>, CommandError>)
      ensures flags.isTutorial ==> r == ExecuteOn(Tutorial, model, render)
      ensures !flags.isTutorial && flags.isLab ==> r == ExecuteOn(Lab, model, render)
      ensures !flags.isTutorial && !flags.isLab ==> r == ExecuteOn(Consultation, model, render)
      ensures r.Failure? <==> targetIndex.zeroBased >= |model.View(flags.Dispatch())|
    {
      if flags.isTutorial then ExecuteOn(Tutorial, model, render)
      else if flags.isLab then ExecuteOn(Lab, model, render)
      else ExecuteOn(Consultation, model, render)
    }

    /** The branch for kind `k` (`executeTutorial`, `executeLab`,
        `executeConsultation`): checks the index against the filtered view of
        `k`, then deletes the event found there through the model. */
    function ExecuteOn<E(==)>(k: Kind, model: Model<E>, render: E -> string): (r: Result<Executed<E>, CommandError>)
      ensures targetIndex.zeroBased >= |model.View(k)| ==> r == Failure(InvalidEventDisplayedIndex)
      ensures targetIndex.zeroBased < |model.View(k)| ==>
        var e := model.View(k)[targetIndex.zeroBased];
        && r.Success?
        && r.value.model.View(k) == RemoveFirst(model.View(k), e)
        && |r.value.model.View(k)| == |model.View(k)| - 1
        && r.value.result.feedback == DeleteSuccessPrefix + render(e)
      ensures r.Success? ==> forall j :: j != k ==> r.value.model.View(j) == model.View(j)
    {
      var shown := model.View(k);
      if targetIndex.zeroBased >= |shown| then
        Failure(InvalidEventDisplayedIndex)
      else
        var toDelete := shown[targetIndex.zeroBased];
        Success(Executed(model.Delete(k, toDelete), CommandResult(DeleteSuccessPrefix + render(toDelete))))
    }

    /** Two commands are equal when their target indices are; the kind flags
        play no part. */
    predicate Equals(other: DeleteEventCommand) {
      targetIndex == other.targetIndex
    }
  }

  /** The last mark decides which view `execute` deletes from, whatever
      marks came before it. */
  lemma MarkedExecutesOn<E>(c: DeleteEventCommand, k: Kind, model: Model<E>, render: E -> string)
    ensures var marked := c.(flags := c.flags.Mark(k));
      marked.Execute(model, render) == c.ExecuteOn(k, model, render)
  {
  }

  /** Assuming the filtered view never holds the same event twice (the
      storage that would guarantee this is not modelled), a successful delete cuts exactly the indexed event out of
      that view: it no longer appears, and every other event keeps its order. */
  lemma {:induction false} DeleteCutsIndexedEvent<E>(c: DeleteEventCommand, model: Model<E>, render: E -> string)
    requires Distinct(model.View(c.flags.Dispatch()))
    requires c.targetIndex.zeroBased < |model.View(c.flags.Dispatch())|
    ensures var k := c.flags.Dispatch();
      var v := model.View(k);
      var i := c.targetIndex.zeroBased;
      var r := c.Execute(model, render);
      && r.Success?
      && r.value.model.View(k) == v[..i] + v[i + 1..]
      && v[i] !in r.value.model.View(k)
      && forall j :: j != k ==> r.value.model.View(j) == model.View(j)
  {
    RemoveFirstAt(model.View(c.flags.Dispatch()), c.targetIndex.zeroBased);
  }

  /** An unmarked command behaves as a consultation delete. */
  lemma UnmarkedIsConsultation<E>(i: Index, model: Model<E>, render: E -> string)
    ensures DeleteEventCommand.New(i).Execute(model, render)
         == DeleteEventCommand.New(i).ExecuteOn(Consultation, model, render)
  {
  }

  /** The out-of-range failure is the same value whichever kind was chosen. */
  lemma OutOfRangeIsKindAgnostic<E>(c: DeleteEventCommand, k1: Kind, k2: Kind, model: Model<E>, render: E -> string)
    requires c.targetIndex.zeroBased >= |model.View(k1)|
    requires c.targetIndex.zeroBased >= |model.View(k2)|
    ensures c.ExecuteOn(k1, model, render) == c.ExecuteOn(k2, model, render)
  {
  }

  /** Equality is an equivalence that ignores the flags: replacing either
      command's flags never changes the answer, and every mark keeps a
      command equal to the fresh command with the same index. */
  lemma EqualsIgnoresFlags(c: DeleteEventCommand, d: DeleteEventCommand, e: DeleteEventCommand, k: Kind)
    ensures c.Equals(d) <==> c.targetIndex == d.targetIndex
    ensures forall f: KindFlags :: c.(flags := f).Equals(d) == c.Equals(d)
    ensures forall f: KindFlags :: c.Equals(d.(flags := f)) == c.Equals(d)
    ensures c.Equals(c)
    ensures c.Equals(d) ==> d.Equals(c)
    ensures c.Equals(d) && d.Equals(e) ==> c.Equals(e)
    ensures c.(flags := c.flags.Mark(k)).Equals(DeleteEventCommand.New(c.targetIndex))
  {
  }

  /** Equal commands need not behave alike: a tutorial delete and a lab
      delete at the same index compare equal but delete from different views. */
  lemma EqualCommandsMayDiffer()
    ensures var t := DeleteEventCommand.New(Index(0)).MarkTutorial();
      var l := DeleteEventCommand.New(Index(0)).MarkLab();
      var m := Model(["T1"], ["L1"], []);
      var show := (e: string) => e;
      && t.Equals(l)
      && t.Execute(m, show) != l.Execute(m, show)
  {
  }

  /** Marking tutorial and then lab resolves to lab: with index 2, three
      tutorials and two labs, the second lab is deleted and the tutorials
      are left alone. */
  lemma RemarkedCommandDeletesLab(render: string -> string)
    ensures var c := DeleteEventCommand.New(Index.FromOneBased(2)).MarkTutorial().MarkLab();
      var m := Model(["T1", "T2", "T3"], ["L1", "L2"], []);
      c.Execute(m, render)
        == Success(Executed(Model(["T1", "T2", "T3"], ["L1"], []), CommandResult("Deleted Event: " + render("L2"))))
  {
    var c := DeleteEventCommand.New(Index.FromOneBased(2)).MarkTutorial().MarkLab();
    var m := Model(["T1", "T2", "T3"], ["L1", "L2"], []);
    assert c.flags.Dispatch() == Lab;
    assert m.labs[c.targetIndex.zeroBased] == "L2";
    assert RemoveFirst(["L2"], "L2") == [];
    assert RemoveFirst(m.labs, "L2") == ["L1"] + RemoveFirst(["L2"], "L2");
    var r := c.Execute(m, render);
    assert r.Success?;
    assert r.value.model.View(Lab) == ["L1"];
    assert r.value.model.View(Tutorial) == m.tutorials;
    assert r.value.model.View(Consultation) == [];
    assert r.value.model == Model(["T1", "T2", "T3"], ["L1"], []);
    assert r.value.result.feedback == "Deleted Event: " + render("L2");
  }
}
