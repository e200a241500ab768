/** The parser of the `open-file` command: from tokenized arguments to an
    open-file command marked with the tutorial or the lab kind, or to the
    parse error that rejects the input. */
module OpenFileParser {
  import opened Wrappers
  import opened Events

  /** The argument prefixes the parser asks about. */
  datatype Prefix =
    | Name | Phone | Email | Photo | Date | Address | Remark | Performance | Tag
    | KindMarker(kind: Kind)

  /** The prefixes of a contact's fields, which an event command must not carry. */
  const EntityPrefixes: seq<Prefix> :=
    [Name, Phone, Email, Photo, Date, Address, Remark, Performance, Tag]

  /** Tokenized arguments: the value each present prefix carries, and the
      text before the first prefix. */
  datatype ArgMap = ArgMap(values: map<Prefix, string>, preamble: string) {

    predicate Has(p: Prefix) {
      p in values
    }

    /** `getValue`: the prefix's value, if it has one. */
    function Value(p: Prefix): (r: Option<string>)
      ensures r.Some? <==> Has(p)
    {
      if p in values then Some(values[p]) else None
    }
  }

  /** The wording of the consultation rejection. */
  const NoFilesMessage: string := "Consultation events do not have files attached to them"

  /** Why parsing failed. */
  datatype ParseError =
    /** The arguments do not have the command's shape; shown with its usage text. */
    | InvalidCommandFormat
    /** The arguments name a consultation, which has no files. */
    | NoFilesForConsultation
    /** The index could not be parsed; carries the index parser's message. */
    | InvalidIndex(message: string)
  {
    /** The message of the error that has a fixed wording in the parser. */
    function FixedMessage(): (r: Option<string>)
      ensures r.Some? <==> NoFilesForConsultation?
      ensures NoFilesForConsultation? ==> r == Some(NoFilesMessage)
    {
      if NoFilesForConsultation? then Some(NoFilesMessage)
      else None
    }
  }

  /** The command the parser builds: a display index and the kind flags. */
  datatype OpenFileCommand = OpenFileCommand(index: Index, flags: KindFlags)

  /** `arePrefixesPresent`: every prefix in `ps` has a value. */
  function ArePrefixesPresent(args: ArgMap, ps: seq<Prefix>): (r: bool)
    ensures r <==> forall i :: 0 <= i < |ps| ==> args.Has(ps[i])
  {
    if ps == [] then true
    else args.Has(ps[0]) && ArePrefixesPresent(args, ps[1..])
  }

  /** `arePrefixesAbsent`: no prefix in `ps` has a value. */
  function ArePrefixesAbsent(args: ArgMap, ps: seq<Prefix>): (r: bool)
    ensures r <==> forall i :: 0 <= i < |ps| ==> !args.Has(ps[i])
  {
    if ps == [] then true
    else !args.Has(ps[0]) && ArePrefixesAbsent(args, ps[1..])
  }

  /** Some contact-field prefix has a value. */
  predicate HasEntityPrefix(args: ArgMap) {
    exists p | p in args.values :: !p.KindMarker?
  }

  /** Some kind prefix has a value. */
  predicate HasKindPrefix(args: ArgMap) {
    exists p | p in args.values :: p.KindMarker?
  }

  /** The entity check over the listed prefixes catches every
      contact-field prefix. */
  lemma EntityCheckIsComplete(args: ArgMap)
    ensures ArePrefixesAbsent(args, EntityPrefixes) <==> !HasEntityPrefix(args)
  {
    if HasEntityPrefix(args) {
      var p :| p in args.values && !p.KindMarker?;
      assert p in EntityPrefixes;
      var i :| 0 <= i < |EntityPrefixes| && EntityPrefixes[i] == p;
    }
  }

  /** A kind prefix is present exactly when one of the three is. */
  lemma KindPrefixCases(args: ArgMap)
    ensures HasKindPrefix(args) <==>
      args.Has(KindMarker(Tutorial)) || args.Has(KindMarker(Lab)) || args.Has(KindMarker(Consultation))
  {
    if HasKindPrefix(args) {
      var p :| p in args.values && p.KindMarker?;
      assert args.Has(KindMarker(p.kind));
      // The case split is needed: without it the solver does not connect
      // `p.kind` to the three named kinds.
      match p.kind
      case Tutorial =>
      case Lab =>
      case Consultation =>
    }
    forall k | args.Has(KindMarker(k)) ensures HasKindPrefix(args) {
      var p := KindMarker(k);
      assert p in args.values && p.KindMarker?;
    }
  }

  /** The arguments pass both format checks. */
  predicate WellFormed(args: ArgMap) {
    !HasEntityPrefix(args) && HasKindPrefix(args) && args.preamble == []
  }

  /** The kind a well-formed, consultation-free argument map selects:
      tutorial takes precedence over lab. */
  function ChosenKind(args: ArgMap): (r: Kind)
    requires HasKindPrefix(args) && !args.Has(KindMarker(Consultation))
    ensures args.Has(KindMarker(r))
    ensures r != Consultation
    ensures r == Lab <==> !args.Has(KindMarker(Tutorial))
  {
    KindPrefixCases(args);
    if args.Has(KindMarker(Tutorial)) then Tutorial else Lab
  }

  /** Parses the index under the kind's prefix and builds the command marked
      with that kind. */
  function BuildCommand(args: ArgMap, k: Kind, parseIndex: string -> Result<Index, string>): (r: Result<OpenFileCommand, ParseError>)
    requires args.Has(KindMarker(k))
    ensures parseIndex(args.values[KindMarker(k)]).Failure? ==>
      r == Failure(InvalidIndex(parseIndex(args.values[KindMarker(k)]).error))
    ensures parseIndex(args.values[KindMarker(k)]).Success? ==>
      && r.Success?
      && r.value.index == parseIndex(args.values[KindMarker(k)]).value
      && r.value.flags.Selected() == {k}
  {
    match parseIndex(args.values[KindMarker(k)])
    case Failure(msg) => Failure(InvalidIndex(msg))
    case Success(index) => Success(OpenFileCommand(index, KindFlags.Cleared().Mark(k)))
  }

  /** `parse`: the checks run in a fixed order, contact-field prefixes
      first, then the presence of a kind prefix and an empty preamble, then
      the consultation rejection, and last the index under the tutorial
      prefix, or under the lab prefix when there is no tutorial prefix. */
  function Parse(args: ArgMap, parseIndex: string -> Result<Index, string>): (r: Result<OpenFileCommand, ParseError>)
    ensures HasEntityPrefix(args) ==> r == Failure(InvalidCommandFormat)
    ensures !HasKindPrefix(args) ==> r == Failure(InvalidCommandFormat)
    ensures args.preamble != [] ==> r == Failure(InvalidCommandFormat)
    ensures r == Failure(InvalidCommandFormat) <==> !WellFormed(args)
    ensures r == Failure(NoFilesForConsultation) <==>
      WellFormed(args) && args.Has(KindMarker(Consultation))
    ensures WellFormed(args) && !args.Has(KindMarker(Consultation)) ==>
      var v := args.values[KindMarker(ChosenKind(args))];
      && (r.Success? <==> parseIndex(v).Success?)
      && (r.Success? ==> r.value.index == parseIndex(v).value)
      && (r.Failure? ==> r.error == InvalidIndex(parseIndex(v).error))
    ensures r.Success? ==>
      && (r.value.flags.Selected() == {Tutorial} || r.value.flags.Selected() == {Lab})
      && r.value.flags.Selected() == {ChosenKind(args)}
  {
    EntityCheckIsComplete(args);
    KindPrefixCases(args);
    if !ArePrefixesAbsent(args, EntityPrefixes) then
      Failure(InvalidCommandFormat)
    else if !(ArePrefixesPresent(args, [KindMarker(Lab)])
              || ArePrefixesPresent(args, [KindMarker(Consultation)])
              || ArePrefixesPresent(args, [KindMarker(Tutorial)]))
            || args.preamble != [] then
      Failure(InvalidCommandFormat)
    else if args.Value(KindMarker(Consultation)).Some? then
      Failure(NoFilesForConsultation)
    else if args.Value(KindMarker(Tutorial)).Some? then
      BuildCommand(args, Tutorial, parseIndex)
    else
      BuildCommand(args, Lab, parseIndex)
  }

  /** With a tutorial prefix present the lab prefix's value is never
      consulted: changing it, adding it or dropping it changes nothing. */
  lemma TutorialTakesPrecedence(args: ArgMap, labValue: Option<string>, parseIndex: string -> Result<Index, string>)
    requires args.Has(KindMarker(Tutorial))
    ensures var other := if labValue.Some?
        then args.(values := args.values[KindMarker(Lab) := labValue.value])
        else args.(values := args.values - {KindMarker(Lab)});
      Parse(other, parseIndex) == Parse(args, parseIndex)
  {
  }

  /** Once the format checks pass, a consultation prefix is rejected
      whatever other kind prefixes come with it. */
  lemma ConsultationAlwaysRejected(args: ArgMap, value: string, parseIndex: string -> Result<Index, string>)
    requires WellFormed(args)
    ensures Parse(args.(values := args.values[KindMarker(Consultation) := value]), parseIndex)
         == Failure(NoFilesForConsultation)
  {
  }

  /** A parsed command executes as the kind it was parsed for: the flags
      resolve to the tutorial or the lab branch, never to consultation. */
  lemma ParsedCommandDispatch(args: ArgMap, parseIndex: string -> Result<Index, string>)
    requires Parse(args, parseIndex).Success?
    ensures var c := Parse(args, parseIndex).value;
      && c.flags.AtMostOne()
      && c.flags.Dispatch() != Consultation
      && (c.flags.Dispatch() == Tutorial <==> args.Has(KindMarker(Tutorial)))
  {
  }
}
