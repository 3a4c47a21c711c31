/** What an Add/Edit run tests, read from the actions and formats it was given. */
module AddEditPlan {
  import opened Strings

  datatype Action = Create | Update | Delete

  datatype Format = Representation | Minimal

  datatype Scenario =
    | CreateSucceeds(format: Format)
    | CreateFails
    | UpdateSucceeds(format: Format)
    | UpdateFails
    | DeleteSucceeds
    | DeleteFails

  datatype PayloadName = CreateSucceedsPayload | CreateFailsPayload | UpdateSucceedsPayload | UpdateFailsPayload
                       | DeleteSucceedsPayload | DeleteFailsPayload

  datatype Plan = Plan(actions: seq<Action>, createFormats: seq<Format>, updateFormats: seq<Format>, scenarios: seq<Scenario>)

  /** A list of names as it was sent: left out, not a list, or a list. */
  datatype Names = Unset | NotAList | Names(values: seq<string>)

  /** The formats as they were sent: left out, not an object, or a list for each key. */
  datatype FormatNames = NoFormats | NotAnObject | FormatNames(chosen: map<string, Names>)

  datatype Options = Options(actions: Names, formats: FormatNames)

  datatype Problem = Malformed | NotChosen | BadActions | BadFormats

  const ADD_EDIT_ACTIONS: seq<Action> := [Create, Update, Delete]
  const ADD_EDIT_FORMATS: seq<Format> := [Representation, Minimal]

  function ActionName(action: Action): string {
    match action
    case Create => "create"
    case Update => "update"
    case Delete => "delete"
  }

  function FormatName(format: Format): string {
    match format
    case Representation => "representation"
    case Minimal => "minimal"
  }

  predicate IsAction(name: string) {
    exists action :: ActionName(action) == name
  }

  predicate IsFormat(name: string) {
    exists format :: FormatName(format) == name
  }

  /** The names of the three actions and the two formats. */
  lemma NamesExactly(name: string)
    ensures IsAction(name) <==> name == "create" || name == "update" || name == "delete"
    ensures IsFormat(name) <==> name == "representation" || name == "minimal"
    ensures forall action :: ActionName(action) == name ==>
              (name == "create" <==> action == Create) && (name == "update" <==> action == Update) && (name == "delete" <==> action == Delete)
    ensures forall format :: FormatName(format) == name ==>
              (name == "representation" <==> format == Representation) && (name == "minimal" <==> format == Minimal)
  {
    assert ActionName(Create) == "create" && ActionName(Update) == "update" && ActionName(Delete) == "delete";
    assert FormatName(Representation) == "representation" && FormatName(Minimal) == "minimal";
  }

  predicate HasShape(options: Options) {
    && !options.actions.NotAList? && !options.formats.NotAnObject?
    && (options.formats.FormatNames? ==> forall key | key in options.formats.chosen :: options.formats.chosen[key].Names?)
  }

  function ActionsNamed(names: seq<string>): seq<Action> {
    Kept(ADD_EDIT_ACTIONS, action => ActionName(action) in names)
  }

  /** `filter` */
  function Kept<T>(items: seq<T>, keep: T -> bool): seq<T> {
    if items == [] then [] else (if keep(items[0]) then [items[0]] else []) + Kept(items[1..], keep)
  }

  /** `flatMap` */
  function FlatMap<T, U>(items: seq<T>, of: T -> seq<U>): seq<U> {
    if items == [] then [] else of(items[0]) + FlatMap(items[1..], of)
  }

  predicate ActionsAreGood(actions: Names) {
    actions.Names? ==> actions.values != [] && forall i | 0 <= i < |actions.values| :: IsAction(actions.values[i])
  }

  predicate FormatsAreGood(formats: FormatNames, actions: seq<Action>) {
    formats.FormatNames? ==> forall key | key in formats.chosen :: FormatsOfAreGood(key, formats.chosen[key], actions)
  }

  predicate FormatsOfAreGood(key: string, chosen: Names, actions: seq<Action>) {
    && (key == ActionName(Create) || key == ActionName(Update))
    && (exists action :: action in actions && ActionName(action) == key)
    && chosen.Names? && chosen.values != []
    && forall i | 0 <= i < |chosen.values| :: IsFormat(chosen.values[i])
  }

  function ChosenFormats(formats: FormatNames, action: Action): seq<Format> {
    var name := ActionName(action);
    if formats.FormatNames? && name in formats.chosen && formats.chosen[name].Names? then
      Kept(ADD_EDIT_FORMATS, format => FormatName(format) in formats.chosen[name].values)
    else ADD_EDIT_FORMATS
  }

  function ScenariosFor(action: Action, createFormats: seq<Format>, updateFormats: seq<Format>): seq<Scenario> {
    match action
    case Delete => [DeleteSucceeds, DeleteFails]
    case Create => FlatMap(Kept(ADD_EDIT_FORMATS, f => f in createFormats), f => [CreateSucceeds(f)]) + [CreateFails]
    case Update => FlatMap(Kept(ADD_EDIT_FORMATS, f => f in updateFormats), f => [UpdateSucceeds(f)]) + [UpdateFails]
  }

  function ReadAddEditSelection(options: Options): Result<Plan, Problem> {
    if !HasShape(options) then Failure(Malformed)
    else if !ActionsAreGood(options.actions) then Failure(BadActions)
    else
      var actions := if options.actions.Names? then ActionsNamed(options.actions.values) else ADD_EDIT_ACTIONS;
      if !FormatsAreGood(options.formats, actions) then Failure(BadFormats)
      else
        var create, update := ChosenFormats(options.formats, Create), ChosenFormats(options.formats, Update);
        Success(Plan(actions, create, update, FlatMap(actions, action => ScenariosFor(action, create, update))))
  }

  /** The formats of a create or an update that is tested must be given. */
  predicate NothingMissing(options: Options) {
    && options.actions.Names?
    && forall action | action != Delete && ActionName(action) in options.actions.values ::
         options.formats.FormatNames? && ActionName(action) in options.formats.chosen
  }

  function PlanAddEditTests(options: Options): Result<Plan, Problem> {
    if !HasShape(options) then Failure(Malformed)
    else if !NothingMissing(options) then Failure(NotChosen)
    else ReadAddEditSelection(options)
  }

  function ActionPayloads(action: Action): seq<PayloadName> {
    match action
    case Create => [CreateSucceedsPayload, CreateFailsPayload]
    case Update => [UpdateSucceedsPayload, UpdateFailsPayload]
    case Delete => [DeleteSucceedsPayload, DeleteFailsPayload]
  }

  function PayloadsFor(plan: Plan): seq<PayloadName> {
    FlatMap(plan.actions, ActionPayloads)
  }

  // What a plan is

  function ActionOf(scenario: Scenario): Action {
    match scenario
    case CreateSucceeds(_) => Create
    case CreateFails => Create
    case UpdateSucceeds(_) => Update
    case UpdateFails => Update
    case DeleteSucceeds => Delete
    case DeleteFails => Delete
  }

  function PayloadOf(scenario: Scenario): PayloadName {
    match scenario
    case CreateSucceeds(_) => CreateSucceedsPayload
    case CreateFails => CreateFailsPayload
    case UpdateSucceeds(_) => UpdateSucceedsPayload
    case UpdateFails => UpdateFailsPayload
    case DeleteSucceeds => DeleteSucceedsPayload
    case DeleteFails => DeleteFailsPayload
  }

  /** The place of a scenario in the order every run keeps: creates, updates, deletes; in each, success before failure. */
  function Rank(scenario: Scenario): nat {
    match scenario
    case CreateSucceeds(Representation) => 0
    case CreateSucceeds(Minimal) => 1
    case CreateFails => 2
    case UpdateSucceeds(Representation) => 3
    case UpdateSucceeds(Minimal) => 4
    case UpdateFails => 5
    case DeleteSucceeds => 6
    case DeleteFails => 7
  }

  predicate ActionChosen(options: Options, action: Action) {
    options.actions.Names? && ActionName(action) in options.actions.values
  }

  predicate FormatChosen(options: Options, action: Action, format: Format) {
    && options.formats.FormatNames? && ActionName(action) in options.formats.chosen
    && options.formats.chosen[ActionName(action)].Names?
    && FormatName(format) in options.formats.chosen[ActionName(action)].values
  }

  /** Whether a selection chooses a scenario. */
  predicate Chooses(options: Options, scenario: Scenario) {
    && ActionChosen(options, ActionOf(scenario))
    && (scenario.CreateSucceeds? || scenario.UpdateSucceeds? ==> FormatChosen(options, ActionOf(scenario), scenario.format))
  }

  /** An action is among those a selection gives, or the selection gives none. */
  predicate ActionStands(options: Options, action: Action) {
    options.actions.Names? ==> ActionChosen(options, action)
  }

  /** A format is among those a selection gives for an action, or it gives none for it. */
  predicate FormatStands(options: Options, action: Action, format: Format) {
    options.formats.FormatNames? && ActionName(action) in options.formats.chosen ==> FormatChosen(options, action, format)
  }

  /** Whether a selection, read with every action and both formats where it is silent, has a scenario. */
  predicate Stands(options: Options, scenario: Scenario) {
    && ActionStands(options, ActionOf(scenario))
    && (scenario.CreateSucceeds? || scenario.UpdateSucceeds? ==> FormatStands(options, ActionOf(scenario), scenario.format))
  }

  lemma {:induction false} KeptAre<T>(items: seq<T>, keep: T -> bool)
    ensures forall x :: x in Kept(items, keep) <==> x in items && keep(x)
  {
    if items != [] {
      KeptAre(items[1..], keep);
    }
  }

  lemma KeptOfFormats(keep: Format -> bool)
    ensures Kept(ADD_EDIT_FORMATS, keep)
         == (if keep(Representation) then [Representation] else []) + (if keep(Minimal) then [Minimal] else [])
  {
    assert ADD_EDIT_FORMATS[1..] == [Minimal];
    assert [Minimal][1..] == [];
    assert Kept([], keep) == [];
  }

  lemma KeptOfActions(keep: Action -> bool)
    ensures Kept(ADD_EDIT_ACTIONS, keep)
         == (if keep(Create) then [Create] else []) + (if keep(Update) then [Update] else []) + (if keep(Delete) then [Delete] else [])
  {
    assert ADD_EDIT_ACTIONS[1..] == [Update, Delete];
    assert [Update, Delete][1..] == [Delete];
    assert [Delete][1..] == [];
    assert Kept([], keep) == [];
    assert Kept([Delete], keep) == if keep(Delete) then [Delete] else [];
  }

  lemma {:induction false} FlatMapOfConcat<T, U>(a: seq<T>, b: seq<T>, of: T -> seq<U>)
    ensures FlatMap(a + b, of) == FlatMap(a, of) + FlatMap(b, of)
  {
    if a == [] {
      assert a + b == b;
    } else {
      assert (a + b)[1..] == a[1..] + b;
      FlatMapOfConcat(a[1..], b, of);
    }
  }

  lemma FlatMapOfOne<T, U>(present: bool, item: T, of: T -> seq<U>)
    ensures FlatMap(if present then [item] else [], of) == if present then of(item) else []
  {
    assert [item][1..] == [];
    assert FlatMap([], of) == [];
  }

  /** In order, and none twice. */
  predicate Increasing(scenarios: seq<Scenario>) {
    forall i, j | 0 <= i < j < |scenarios| :: Rank(scenarios[i]) < Rank(scenarios[j])
  }

  lemma IncreasingParts(a: seq<Scenario>, b: seq<Scenario>, bound: nat)
    requires Increasing(a) && (forall i | 0 <= i < |a| :: Rank(a[i]) < bound)
    requires Increasing(b) && (forall i | 0 <= i < |b| :: Rank(b[i]) >= bound)
    ensures Increasing(a + b)
  {
  }

  lemma FormatPart(action: Action, create: seq<Format>, update: seq<Format>)
    requires action != Delete
    ensures var formats := if action == Create then create else update;
            var of := (f: Format) => if action == Create then CreateSucceeds(f) else UpdateSucceeds(f);
            ScenariosFor(action, create, update)
            == (if Representation in formats then [of(Representation)] else []) + (if Minimal in formats then [of(Minimal)] else [])
               + [if action == Create then CreateFails else UpdateFails]
  {
    var formats := if action == Create then create else update;
    var of := (f: Format) => if action == Create then [CreateSucceeds(f)] else [UpdateSucceeds(f)];
    KeptOfFormats(f => f in create);
    KeptOfFormats(f => f in update);
    FlatMapOfConcat(if Representation in formats then [Representation] else [], if Minimal in formats then [Minimal] else [], of);
    FlatMapOfOne(Representation in formats, Representation, of);
    FlatMapOfOne(Minimal in formats, Minimal, of);
    SameFlatMap(Kept(ADD_EDIT_FORMATS, f => f in formats), of, f => [CreateSucceeds(f)], action == Create);
    SameFlatMap(Kept(ADD_EDIT_FORMATS, f => f in formats), of, f => [UpdateSucceeds(f)], action == Update);
    SameKept(ADD_EDIT_FORMATS, f => f in formats, f => f in create, action == Create);
    SameKept(ADD_EDIT_FORMATS, f => f in formats, f => f in update, action == Update);
  }

  lemma {:induction false} SameFlatMap<T, U>(items: seq<T>, a: T -> seq<U>, b: T -> seq<U>, same: bool)
    requires same ==> forall x | x in items :: a(x) == b(x)
    ensures same ==> FlatMap(items, a) == FlatMap(items, b)
  {
    if items != [] {
      SameFlatMap(items[1..], a, b, same);
    }
  }

  lemma {:induction false} SameKept<T>(items: seq<T>, a: T -> bool, b: T -> bool, same: bool)
    requires same ==> forall x | x in items :: a(x) == b(x)
    ensures same ==> Kept(items, a) == Kept(items, b)
  {
    if items != [] {
      SameKept(items[1..], a, b, same);
    }
  }

  function ActionsRead(options: Options): seq<Action> {
    if options.actions.Names? then ActionsNamed(options.actions.values) else ADD_EDIT_ACTIONS
  }

  lemma ActionsReadAre(options: Options)
    ensures ActionsRead(options)
         == (if ActionStands(options, Create) then [Create] else []) + (if ActionStands(options, Update) then [Update] else [])
            + (if ActionStands(options, Delete) then [Delete] else [])
  {
    if options.actions.Names? {
      KeptOfActions(action => ActionName(action) in options.actions.values);
    }
    hide Kept;
  }

  lemma PartsOfAPlan(options: Options, create: seq<Format>, update: seq<Format>)
    ensures FlatMap(ActionsRead(options), action => ScenariosFor(action, create, update))
         == (if ActionStands(options, Create) then ScenariosFor(Create, create, update) else [])
            + (if ActionStands(options, Update) then ScenariosFor(Update, create, update) else [])
            + (if ActionStands(options, Delete) then ScenariosFor(Delete, create, update) else [])
  {
    var of := (action: Action) => ScenariosFor(action, create, update);
    ActionsReadAre(options);
    hide ActionsRead, ActionStands, ScenariosFor, FlatMap;
    var a := if ActionStands(options, Create) then [Create] else [];
    var b := if ActionStands(options, Update) then [Update] else [];
    var c := if ActionStands(options, Delete) then [Delete] else [];
    FlatMapOfConcat(a + b, c, of);
    FlatMapOfConcat(a, b, of);
    FlatMapOfOne(ActionStands(options, Create), Create, of);
    FlatMapOfOne(ActionStands(options, Update), Update, of);
    FlatMapOfOne(ActionStands(options, Delete), Delete, of);
  }

  /** The formats of a create or an update are those given for it, or both. */
  lemma ChosenFormatsAre(options: Options, action: Action, format: Format)
    requires HasShape(options)
    ensures format in ChosenFormats(options.formats, action) <==> FormatStands(options, action, format)
  {
    var name := ActionName(action);
    if options.formats.FormatNames? && name in options.formats.chosen {
      var keep := (f: Format) => FormatName(f) in options.formats.chosen[name].values;
      KeptOfFormats(keep);
    } else {
      assert ADD_EDIT_FORMATS[0] == Representation && ADD_EDIT_FORMATS[1] == Minimal;
    }
  }

  lemma PartOfAPlan(options: Options, action: Action, create: seq<Format>, update: seq<Format>)
    requires ActionStands(options, action)
    requires action != Delete ==>
      forall format :: format in (if action == Create then create else update) <==> FormatStands(options, action, format)
    ensures var part := ScenariosFor(action, create, update);
            && Increasing(part)
            && (forall i | 0 <= i < |part| :: ActionOf(part[i]) == action)
            && forall scenario | ActionOf(scenario) == action :: scenario in part <==> Stands(options, scenario)
  {
    hide FlatMap, Kept, FormatStands, ActionStands;
    if action != Delete {
      FormatPart(action, create, update);
      hide ScenariosFor;
      var formats := if action == Create then create else update;
      assert Representation in formats <==> FormatStands(options, action, Representation);
      assert Minimal in formats <==> FormatStands(options, action, Minimal);
      forall scenario | ActionOf(scenario) == action
        ensures scenario in ScenariosFor(action, create, update) <==> Stands(options, scenario)
      {
        if scenario.CreateSucceeds? || scenario.UpdateSucceeds? {
          assert scenario.format == Representation || scenario.format == Minimal;
        }
      }
    }
  }

  /** The scenarios a selection has of one action. */
  lemma ChosenOf(options: Options, action: Action)
    requires ReadAddEditSelection(options).Success? && ActionStands(options, action)
    ensures var plan := ReadAddEditSelection(options).value;
            var part := ScenariosFor(action, plan.createFormats, plan.updateFormats);
            && Increasing(part)
            && (forall i | 0 <= i < |part| :: ActionOf(part[i]) == action)
            && forall scenario | ActionOf(scenario) == action :: scenario in part <==> Stands(options, scenario)
  {
    var plan := ReadAddEditSelection(options).value;
    assert plan.createFormats == ChosenFormats(options.formats, Create);
    assert plan.updateFormats == ChosenFormats(options.formats, Update);
    hide FlatMap, Kept, ScenariosFor, Increasing, Stands, ChosenFormats, FormatStands, ActionStands;
    if action != Delete {
      forall format
        ensures format in (if action == Create then plan.createFormats else plan.updateFormats) <==> FormatStands(options, action, format)
      {
        ChosenFormatsAre(options, action, format);
      }
    }
    PartOfAPlan(options, action, plan.createFormats, plan.updateFormats);
  }

  /**
   * What a selection is read as: the scenarios of the actions it gives, or of every action where it gives none, in the
   * formats it gives for them, or in both; in the one order every run keeps, each once.
   */
  lemma SelectedScenarios(options: Options)
    requires ReadAddEditSelection(options).Success?
    ensures var scenarios := ReadAddEditSelection(options).value.scenarios;
            && Increasing(scenarios)
            && forall scenario :: scenario in scenarios <==> Stands(options, scenario)
  {
    var plan := ReadAddEditSelection(options).value;
    var create, update := plan.createFormats, plan.updateFormats;
    PartsOfAPlan(options, create, update);
    hide FlatMap, Kept, ScenariosFor, FormatStands, ActionStands, ActionsNamed;
    var a := if ActionStands(options, Create) then ScenariosFor(Create, create, update) else [];
    var b := if ActionStands(options, Update) then ScenariosFor(Update, create, update) else [];
    var c := if ActionStands(options, Delete) then ScenariosFor(Delete, create, update) else [];
    assert plan.scenarios == a + b + c;
    if ActionStands(options, Create) { ChosenOf(options, Create); }
    if ActionStands(options, Update) { ChosenOf(options, Update); }
    if ActionStands(options, Delete) { ChosenOf(options, Delete); }
    hide ReadAddEditSelection;
    PartsTogether(options, a, b, c);
  }

  lemma PartsTogether(options: Options, a: seq<Scenario>, b: seq<Scenario>, c: seq<Scenario>)
    requires Increasing(a) && Increasing(b) && Increasing(c)
    requires forall i | 0 <= i < |a| :: ActionOf(a[i]) == Create
    requires forall i | 0 <= i < |b| :: ActionOf(b[i]) == Update
    requires forall i | 0 <= i < |c| :: ActionOf(c[i]) == Delete
    requires forall scenario | ActionOf(scenario) == Create :: scenario in a <==> Stands(options, scenario)
    requires forall scenario | ActionOf(scenario) == Update :: scenario in b <==> Stands(options, scenario)
    requires forall scenario | ActionOf(scenario) == Delete :: scenario in c <==> Stands(options, scenario)
    ensures Increasing(a + b + c)
    ensures forall scenario :: scenario in a + b + c <==> Stands(options, scenario)
  {
    hide Stands;
    IncreasingParts(a, b, 3);
    IncreasingParts(a + b, c, 6);
    forall scenario ensures scenario in a + b + c <==> Stands(options, scenario) {
      assert scenario in a + b + c <==> scenario in a || scenario in b || scenario in c;
    }
  }

  /**
   * A plan's scenarios are the ones the selection chooses, in the one order every run keeps, each once: so they depend on
   * what was chosen alone, not on the order or the repetition of it.
   */
  lemma PlannedScenarios(options: Options)
    requires PlanAddEditTests(options).Success?
    ensures var scenarios := PlanAddEditTests(options).value.scenarios;
            && Increasing(scenarios)
            && forall scenario :: scenario in scenarios <==> Chooses(options, scenario)
  {
    SelectedScenarios(options);
    hide ReadAddEditSelection, Increasing, FormatChosen;
    forall scenario ensures Stands(options, scenario) <==> Chooses(options, scenario) {
      if scenario.CreateSucceeds? || scenario.UpdateSucceeds? {
        assert ActionOf(scenario) != Delete;
      }
    }
  }

  /** Two lists in the order every run keeps, of the same scenarios, are the same list. */
  lemma {:induction false} IncreasingIsUnique(a: seq<Scenario>, b: seq<Scenario>)
    requires Increasing(a) && Increasing(b) && forall scenario :: scenario in a <==> scenario in b
    ensures a == b
  {
    if a == [] {
      if b != [] {
        HoldsItsFirst(b);
      }
    } else {
      assert a[0] in a && a[0] in b && b[0] in b && b[0] in a;
      assert Rank(a[0]) == Rank(b[0]);
      forall scenario ensures scenario in a[1..] <==> scenario in b[1..] {
        assert scenario in a[1..] <==> scenario in a && scenario != a[0];
        assert scenario in b[1..] <==> scenario in b && scenario != b[0];
      }
      IncreasingIsUnique(a[1..], b[1..]);
    }
  }

  lemma HoldsItsFirst(b: seq<Scenario>)
    requires b != []
    ensures b[0] in b
  {
  }

  /** Selections that choose the same are planned the same, whatever order or repetition they are given in. */
  lemma SameChoiceSamePlan(a: Options, b: Options)
    requires PlanAddEditTests(a).Success? && PlanAddEditTests(b).Success?
    ensures PlanAddEditTests(a).value.scenarios == PlanAddEditTests(b).value.scenarios
       <==> forall scenario :: Chooses(a, scenario) <==> Chooses(b, scenario)
  {
    hide PlanAddEditTests, Chooses;
    PlannedScenarios(a);
    PlannedScenarios(b);
    if forall scenario :: Chooses(a, scenario) <==> Chooses(b, scenario) {
      IncreasingIsUnique(PlanAddEditTests(a).value.scenarios, PlanAddEditTests(b).value.scenarios);
    }
  }

  predicate AllFormats(chosen: Names) {
    chosen.Names? && chosen.values != [] && forall i | 0 <= i < |chosen.values| :: IsFormat(chosen.values[i])
  }

  lemma GoodFormatsOf(options: Options, key: string, chosen: Names)
    requires options.actions.Names?
    ensures FormatsOfAreGood(key, chosen, ActionsNamed(options.actions.values))
       <==> && (exists action :: action != Delete && ActionName(action) == key && ActionChosen(options, action))
            && AllFormats(chosen)
  {
    var keep := (action: Action) => ActionName(action) in options.actions.values;
    KeptAre(ADD_EDIT_ACTIONS, keep);
    assert ADD_EDIT_ACTIONS[0] == Create && ADD_EDIT_ACTIONS[1] == Update && ADD_EDIT_ACTIONS[2] == Delete;
    assert forall action :: action in ActionsNamed(options.actions.values) <==> ActionChosen(options, action);
  }

  /**
   * A selection is planned exactly when it has a list of known actions, not empty, and one of known formats for each
   * create or update among them, and for nothing else.
   */
  lemma PlannedExactly(options: Options)
    ensures PlanAddEditTests(options).Success?
       <==> && options.actions.Names? && options.actions.values != []
            && (forall i | 0 <= i < |options.actions.values| :: IsAction(options.actions.values[i]))
            && !options.formats.NotAnObject?
            && var chosen := if options.formats.FormatNames? then options.formats.chosen else map[];
               && (forall action | action != Delete && ActionChosen(options, action) :: ActionName(action) in chosen)
               && forall key | key in chosen ::
                    && AllFormats(chosen[key])
                    && exists action :: action != Delete && ActionName(action) == key && ActionChosen(options, action)
  {
    if options.formats.FormatNames? && options.actions.Names? {
      forall key | key in options.formats.chosen
        ensures FormatsOfAreGood(key, options.formats.chosen[key], ActionsNamed(options.actions.values))
           <==> && (exists action :: action != Delete && ActionName(action) == key && ActionChosen(options, action))
                && AllFormats(options.formats.chosen[key])
      {
        GoodFormatsOf(options, key, options.formats.chosen[key]);
      }
    }
    hide FormatsOfAreGood, ActionsNamed, ActionName, ScenariosFor, IsAction, IsFormat;
  }

  /** Something that should be a list is none, or the formats are none. */
  predicate IsMalformed(options: Options) {
    || options.actions.NotAList? || options.formats.NotAnObject?
    || (options.formats.FormatNames? && exists key :: key in options.formats.chosen && !options.formats.chosen[key].Names?)
  }

  /** No actions are given, or a create or an update among them without formats. */
  predicate IsUnchosen(options: Options) {
    options.actions.Unset? ||
    (options.actions.Names? &&
     exists name :: (name == "create" || name == "update") && name in options.actions.values
                    && (options.formats.NoFormats? || (options.formats.FormatNames? && name !in options.formats.chosen)))
  }

  /** What is said of a selection that is not planned: of its shape first, then of what is left out, then of its actions. */
  lemma ProblemsExactly(options: Options)
    ensures PlanAddEditTests(options) == Failure(Malformed) <==> IsMalformed(options)
    ensures PlanAddEditTests(options) == Failure(NotChosen) <==> !IsMalformed(options) && IsUnchosen(options)
    ensures PlanAddEditTests(options) == Failure(BadActions) <==>
              && !IsMalformed(options) && !IsUnchosen(options)
              && (options.actions.values == [] || exists i :: 0 <= i < |options.actions.values| && !IsAction(options.actions.values[i]))
  {
    assert ActionName(Create) == "create" && ActionName(Update) == "update";
    if !IsMalformed(options) && options.actions.Names? {
      UnchosenExactly(options);
    }
    hide FormatsAreGood, ScenariosFor, ActionsNamed, IsAction, ChosenFormats;
  }

  lemma UnchosenExactly(options: Options)
    requires !IsMalformed(options) && options.actions.Names?
    ensures NothingMissing(options) <==> !IsUnchosen(options)
  {
    assert ActionName(Create) == "create" && ActionName(Update) == "update";
    if !IsUnchosen(options) {
      forall action | action != Delete && ActionName(action) in options.actions.values
        ensures options.formats.FormatNames? && ActionName(action) in options.formats.chosen
      {
        assert ActionName(action) == "create" || ActionName(action) == "update";
      }
    }
  }

  /** Which payload each scenario sends, and which action it is of. */
  lemma PayloadsExactly(format: Format)
    ensures PayloadOf(CreateSucceeds(format)) == CreateSucceedsPayload && PayloadOf(CreateFails) == CreateFailsPayload
    ensures PayloadOf(UpdateSucceeds(format)) == UpdateSucceedsPayload && PayloadOf(UpdateFails) == UpdateFailsPayload
    ensures PayloadOf(DeleteSucceeds) == DeleteSucceedsPayload && PayloadOf(DeleteFails) == DeleteFailsPayload
    ensures ActionOf(CreateSucceeds(format)) == Create == ActionOf(CreateFails)
    ensures ActionOf(UpdateSucceeds(format)) == Update == ActionOf(UpdateFails)
    ensures ActionOf(DeleteSucceeds) == Delete == ActionOf(DeleteFails)
  {
  }

  /** A planned run loads the payloads its scenarios need, and no others. */
  lemma PayloadsSuffice(options: Options, name: PayloadName)
    requires PlanAddEditTests(options).Success?
    ensures var plan := PlanAddEditTests(options).value;
            name in PayloadsFor(plan) <==> exists scenario :: scenario in plan.scenarios && PayloadOf(scenario) == name
  {
    hide FlatMap, Kept;
    var plan, named := PlanAddEditTests(options).value, options.actions.values;
    PlannedScenarios(options);
    PayloadsOfActions(named);
    forall action | action != Delete && ActionChosen(options, action)
      ensures exists format :: FormatChosen(options, action, format)
    {
      var chosen := options.formats.chosen[ActionName(action)];
      assert FormatsOfAreGood(ActionName(action), chosen, plan.actions);
      var format :| FormatName(format) == chosen.values[0];
      assert FormatChosen(options, action, format);
    }
    SomeScenario(options, name);
  }

  predicate NeedsPayload(named: seq<string>, name: PayloadName) {
    exists action :: ActionName(action) in named && name in ActionPayloads(action)
  }

  lemma PayloadsOfActions(named: seq<string>)
    ensures forall name :: name in FlatMap(ActionsNamed(named), ActionPayloads) <==> NeedsPayload(named, name)
  {
    KeptOfActions(action => ActionName(action) in named);
    var a := if ActionName(Create) in named then [Create] else [];
    var b := if ActionName(Update) in named then [Update] else [];
    var c := if ActionName(Delete) in named then [Delete] else [];
    FlatMapOfConcat(a + b, c, ActionPayloads);
    FlatMapOfConcat(a, b, ActionPayloads);
    FlatMapOfOne(ActionName(Create) in named, Create, ActionPayloads);
    FlatMapOfOne(ActionName(Update) in named, Update, ActionPayloads);
    FlatMapOfOne(ActionName(Delete) in named, Delete, ActionPayloads);
  }

  /** A payload is needed exactly where its action is chosen. */
  lemma SomeScenario(options: Options, name: PayloadName)
    requires forall action | action != Delete && ActionChosen(options, action) ::
               exists format :: FormatChosen(options, action, format)
    ensures (exists scenario :: Chooses(options, scenario) && PayloadOf(scenario) == name)
       <==> exists action :: ActionChosen(options, action) && name in ActionPayloads(action)
  {
    forall action | ActionChosen(options, action) && name in ActionPayloads(action)
      ensures exists scenario :: Chooses(options, scenario) && PayloadOf(scenario) == name
    {
      var scenario: Scenario;
      if action != Delete {
        var format :| FormatChosen(options, action, format);
        scenario := if action == Create then (if name == CreateFailsPayload then CreateFails else CreateSucceeds(format))
                    else (if name == UpdateFailsPayload then UpdateFails else UpdateSucceeds(format));
      } else {
        scenario := if name == DeleteFailsPayload then DeleteFails else DeleteSucceeds;
      }
      assert Chooses(options, scenario) && PayloadOf(scenario) == name;
    }
    forall scenario | Chooses(options, scenario) && PayloadOf(scenario) == name
      ensures exists action :: ActionChosen(options, action) && name in ActionPayloads(action)
    {
      assert name in ActionPayloads(ActionOf(scenario));
    }
  }
}
