/** The vocabulary shared by the event commands: event kinds, display
    indices, the three kind flags a command carries, and the model's
    per-kind filtered views. */
module Events {

  /** The three kinds of calendar event. */
  datatype Kind = Tutorial | Lab | Consultation

  /** A display index, stored zero-based as the program's `Index` does. */
  datatype Index = Index(zeroBased: nat) {
    /** The index as the user types it. */
    function OneBased(): (r: nat)
      ensures r >= 1
    {
      zeroBased + 1
    }

    static function FromOneBased(n: nat): (r: Index)
      requires n >= 1
      ensures r.OneBased() == n
    {
      Index(n - 1)
    }
  }

  /** The three kind flags of an event command. */
  datatype KindFlags = KindFlags(isTutorial: bool, isLab: bool, isConsultation: bool) {

    predicate Has(k: Kind) {
      match k
      case Tutorial => isTutorial
      case Lab => isLab
      case Consultation => isConsultation
    }

    /** The kinds whose flag is set. */
    function Selected(): (r: set<Kind>)
      ensures forall k :: k in r <==> Has(k)
    {
      (if isTutorial then {Tutorial} else {})
      + (if isLab then {Lab} else {})
      + (if isConsultation then {Consultation} else {})
    }

    /** At most one flag is set. */
    predicate AtMostOne() {
      |Selected()| <= 1
    }

    /** The flags of a freshly constructed command: none set. */
    static function Cleared(): (r: KindFlags)
      ensures r.Selected() == {}
    {
      KindFlags(false, false, false)
    }

    /** Sets the flag of `k` and clears the other two, whatever was set before. */
    function Mark(k: Kind): (r: KindFlags)
      ensures r.Selected() == {k}
      ensures r.AtMostOne()
    {
      match k
      case Tutorial => KindFlags(true, false, false)
      case Lab => KindFlags(false, true, false)
      case Consultation => KindFlags(false, false, true)
    }

    /** The branch an event command's `execute` takes: tutorial first, then
        lab, and consultation in every other case, including when no flag
        is set. */
    function Dispatch(): (r: Kind)
      ensures r == Tutorial <==> isTutorial
      ensures r == Lab <==> !isTutorial && isLab
      ensures r == Consultation <==> !isTutorial && !isLab
      ensures AtMostOne() && Selected() != {} ==> Selected() == {r}
      ensures Selected() == {} ==> r == Consultation
    {
      if isTutorial then Tutorial
      else if isLab then Lab
      else Consultation
    }
  }

  /** The flags after a series of mark calls, applied left to right. */
  function ApplyMarks(f: KindFlags, marks: seq<Kind>): KindFlags
    decreases |marks|
  {
    if marks == [] then f else ApplyMarks(f.Mark(marks[0]), marks[1..])
  }

  /** The last mark wins: after any non-empty series of marks exactly the
      flag of the last one is set, whatever the flags were before. */
  lemma {:induction false} LastMarkWins(f: KindFlags, marks: seq<Kind>)
    requires |marks| > 0
    ensures ApplyMarks(f, marks).Selected() == {marks[|marks| - 1]}
    ensures ApplyMarks(f, marks).Dispatch() == marks[|marks| - 1]
    decreases |marks|
  {
    if |marks| > 1 {
      LastMarkWins(f.Mark(marks[0]), marks[1..]);
      assert marks[1..][|marks[1..]| - 1] == marks[|marks| - 1];
    }
  }

  /** Starting from a fresh command, at most one flag is ever set. */
  lemma {:induction false} MarksKeepAtMostOne(marks: seq<Kind>)
    ensures ApplyMarks(KindFlags.Cleared(), marks).AtMostOne()
  {
    if marks != [] {
      LastMarkWins(KindFlags.Cleared(), marks);
    }
  }

  /** No element occurs twice. The delete lemmas assume this of a filtered
      view; the storage that would guarantee it is not modelled. */
  predicate Distinct<E(==)>(s: seq<E>) {
    forall i, j :: 0 <= i < j < |s| ==> s[i] != s[j]
  }

  /** Removes the first element equal to `e`, as `List.remove(Object)` does;
      leaves the sequence alone when `e` does not occur. */
  function RemoveFirst<E(==)>(s: seq<E>, e: E): (r: seq<E>)
    ensures e !in s ==> r == s
    ensures e in s ==> |r| == |s| - 1
    ensures multiset(r) == multiset(s) - multiset{e}
  {
    if s == [] then []
    else
      assert s == [s[0]] + s[1..];
      if s[0] == e then s[1..]
      else [s[0]] + RemoveFirst(s[1..], e)
  }

  /** In a duplicate-free sequence, removing the element at position `i`
      cuts exactly that position out, and the element no longer occurs. */
  lemma {:induction false} RemoveFirstAt<E>(s: seq<E>, i: nat)
    requires Distinct(s)
    requires i < |s|
    ensures RemoveFirst(s, s[i]) == s[..i] + s[i + 1..]
    ensures s[i] !in RemoveFirst(s, s[i])
  {
    var t := s[1..];
    DistinctTail(s);
    if i == 0 {
      assert RemoveFirst(s, s[0]) == t;
      assert s[..0] + s[1..] == t;
    } else {
      assert t[i - 1] == s[i];
      RemoveFirstAt(t, i - 1);
      var rest := RemoveFirst(t, s[i]);
      assert RemoveFirst(s, s[i]) == [s[0]] + rest;
      CutAfterHead(s, i);
    }
  }

  /** Cutting out position `i > 0` keeps the head and cuts position
      `i - 1` out of the tail. */
  lemma CutAfterHead<E>(s: seq<E>, i: nat)
    requires 0 < i < |s|
    ensures s[..i] + s[i + 1..] == [s[0]] + (s[1..][..i - 1] + s[1..][i..])
  {
  }

  /** The tail of a duplicate-free sequence is duplicate-free and does not
      contain the head. */
  lemma DistinctTail<E>(s: seq<E>)
    requires Distinct(s)
    requires |s| > 0
    ensures Distinct(s[1..])
    ensures s[0] !in s[1..]
  {
  }

  /** The model facade as the event commands see it: the currently filtered
      view of each kind of event. */
  datatype Model<E(==)> = Model(tutorials: seq<E>, labs: seq<E>, consultations: seq<E>) {

    /** `getFilteredTutorialList`, `getFilteredLabList`, `getFilteredConsultationList`. */
    function View(k: Kind): seq<E> {
      match k
      case Tutorial => tutorials
      case Lab => labs
      case Consultation => consultations
    }

    /** `deleteTutorial`, `deleteLab`, `deleteConsultation`: removes `e` from
        the view of kind `k` and touches no other kind. */
    function Delete(k: Kind, e: E): (r: Model<E>)
      ensures r.View(k) == RemoveFirst(View(k), e)
      ensures forall j :: j != k ==> r.View(j) == View(j)
    {
      match k
      case Tutorial => this.(tutorials := RemoveFirst(tutorials, e))
      case Lab => this.(labs := RemoveFirst(labs, e))
      case Consultation => this.(consultations := RemoveFirst(consultations, e))
    }
  }
}
