/** Validation and registration of the custom commands listed in the
    configuration. PHP's class lookup is modelled by a table from class names
    to what the launcher asks of a declaration. */
module Registry {
  import opened Errors
  import opened Seqs

  /** What a name the autoloader can find declares. `class_exists` reports
      classes, abstract classes and enums; `new` instantiates only a class
      that is neither abstract nor an enum. */
  datatype ClassKind = ConcreteClass | AbstractClass | Interface | Trait | Enum

  /** A declaration the autoloader can find: its kind, whether it implements
      `Codeception\CustomCommandInterface`, and what its static
      `getCommandName()` returns. */
  datatype ClassInfo = ClassInfo(kind: ClassKind, isCustomCommand: bool, commandName: string)

  /** A command object added to the console application: `new $className($name)`. */
  datatype Command = Command(name: string, className: string)

  function ClassNotFoundMessage(className: string): string
  {
    "Extension: Command class " + className + " not found"
  }

  function NotACustomCommandMessage(className: string): string
  {
    "Extension: Command " + className + " must implement the interface `Codeception\\CustomCommandInterface`"
  }

  /** `class_exists($className)`. */
  predicate ClassExists(classes: map<string, ClassInfo>, className: string)
  {
    className in classes && classes[className].kind in {ConcreteClass, AbstractClass, Enum}
  }

  /** `new $className(...)` finds a class it can instantiate. */
  predicate Instantiable(classes: map<string, ClassInfo>, className: string)
  {
    className in classes && classes[className].kind == ConcreteClass
  }

  /** The `\Error` that `new $className(...)` throws when it cannot
      instantiate the name. */
  function InstantiationError(classes: map<string, ClassInfo>, className: string): (r: Throwable)
    requires !Instantiable(classes, className)
    ensures r.kind == EngineError && r.code == 0
  {
    var message :=
      if className !in classes then "Class \"" + className + "\" not found"
      else if classes[className].kind == AbstractClass then "Cannot instantiate abstract class " + className
      else if classes[className].kind == Interface then "Cannot instantiate interface " + className
      else if classes[className].kind == Trait then "Cannot instantiate trait " + className
      else "Cannot instantiate enum " + className;
    Throwable(EngineError, 0, message)
  }

  predicate IsValidCommandClass(classes: map<string, ClassInfo>, className: string)
  {
    ClassExists(classes, className) && classes[className].isCustomCommand
  }

  /** `getCustomCommandName`: the class must exist, then must implement the
      interface; its command name is what its static accessor returns. */
  function CommandName(classes: map<string, ClassInfo>, className: string): (r: Outcome<string>)
    ensures r.Normal? <==> IsValidCommandClass(classes, className)
    ensures r.Normal? ==> r.value == classes[className].commandName
    ensures !ClassExists(classes, className) ==> r == Thrown(ConfigurationError(ClassNotFoundMessage(className)))
    ensures ClassExists(classes, className) && !classes[className].isCustomCommand ==>
      r == Thrown(ConfigurationError(NotACustomCommandMessage(className)))
  {
    if !ClassExists(classes, className) then
      Thrown(ConfigurationError(ClassNotFoundMessage(className)))
    else if !classes[className].isCustomCommand then
      Thrown(ConfigurationError(NotACustomCommandMessage(className)))
    else
      Normal(classes[className].commandName)
  }

  /** The order in which one listed class is instantiated and validated.
      `NewFirst` is the code as written: `new $commandClass(...)` looks the
      class up before its argument `getCustomCommandName(...)` is evaluated.
      `ValidateFirst` is the order the validation is evidently meant to take:
      `getCustomCommandName` first, then `new`. */
  datatype CheckOrder = NewFirst | ValidateFirst

  /** A class `new` can instantiate and that passes validation. */
  predicate Registrable(classes: map<string, ClassInfo>, className: string)
  {
    Instantiable(classes, className) && classes[className].isCustomCommand
  }

  /** `new $commandClass($this->getCustomCommandName($commandClass))` in the
      given order. Both orders succeed on the same classes with the same
      command; they differ in which failure a bad class reports. */
  function NewCommand(classes: map<string, ClassInfo>, className: string, order: CheckOrder): (r: Outcome<Command>)
    ensures r.Normal? <==> Registrable(classes, className)
    ensures r.Normal? ==> r.value == Command(classes[className].commandName, className)
  {
    match order
    case NewFirst =>
      if !Instantiable(classes, className) then Thrown(InstantiationError(classes, className))
      else (
        match CommandName(classes, className)
        case Thrown(e) => Thrown(e)
        case Normal(name) => Normal(Command(name, className)))
    case ValidateFirst =>
      match CommandName(classes, className)
      case Thrown(e) => Thrown(e)
      case Normal(name) =>
        if !Instantiable(classes, className) then Thrown(InstantiationError(classes, className))
        else Normal(Command(name, className))
  }

  /** Which failure a class that cannot be registered reports. As written,
      a name `new` cannot instantiate fails with the `\Error` of `new`, before
      any validation; validated first, a class that does not exist or does
      not implement the interface fails with the launcher's own exception.
      In both orders an instantiable class that does not implement the
      interface fails validation. */
  lemma NewCommandFailures(classes: map<string, ClassInfo>, className: string, order: CheckOrder)
    ensures order == NewFirst && !Instantiable(classes, className) ==>
      NewCommand(classes, className, order) == Thrown(InstantiationError(classes, className))
    ensures order == ValidateFirst && !IsValidCommandClass(classes, className) ==>
      NewCommand(classes, className, order) == Thrown(CommandName(classes, className).error)
    ensures order == ValidateFirst && IsValidCommandClass(classes, className) && !Instantiable(classes, className) ==>
      NewCommand(classes, className, order) == Thrown(InstantiationError(classes, className))
    ensures Instantiable(classes, className) && !classes[className].isCustomCommand ==>
      NewCommand(classes, className, order) == Thrown(ConfigurationError(NotACustomCommandMessage(className)))
  {
  }

  /** Commands added so far, and the exception that stopped the loop. */
  datatype Registration = Registration(added: seq<Command>, err: Option<Throwable>)

  /** The registration loop over the listed classes, in list order, stopping
      at the first class that fails. */
  function RegisterAll(classes: map<string, ClassInfo>, list: seq<string>, order: CheckOrder): Registration
  {
    if list == [] then Registration([], None)
    else
      match NewCommand(classes, list[0], order)
      case Thrown(e) => Registration([], Some(e))
      case Normal(c) =>
        var rest := RegisterAll(classes, list[1..], order);
        Registration([c] + rest.added, rest.err)
  }

  predicate RegistrableAt(classes: map<string, ClassInfo>, list: seq<string>, k: int)
    requires 0 <= k < |list|
  {
    Registrable(classes, list[k])
  }

  /** One command per class in list order, named by the class's accessor;
      registration fails exactly when some class cannot be registered, and
      then it stops at the first such class, whose failure is the one
      reported, with every class before it already added. */
  lemma {:induction false} RegisterAllSpec(classes: map<string, ClassInfo>, list: seq<string>, order: CheckOrder)
    ensures var r := RegisterAll(classes, list, order);
      |r.added| <= |list| &&
      (forall k :: 0 <= k < |r.added| ==>
        RegistrableAt(classes, list, k) &&
        r.added[k] == Command(classes[list[k]].commandName, list[k])) &&
      (r.err.None? <==> forall k :: 0 <= k < |list| ==> RegistrableAt(classes, list, k)) &&
      (r.err.None? ==> |r.added| == |list|) &&
      (r.err.Some? ==>
        (|r.added| < |list| &&
         !RegistrableAt(classes, list, |r.added|) &&
         r.err.value == NewCommand(classes, list[|r.added|], order).error))
  {
    if list != [] {
      var r := RegisterAll(classes, list, order);
      var rest := RegisterAll(classes, list[1..], order);
      RegisterAllSpec(classes, list[1..], order);
      forall k | 1 <= k < |list|
        ensures RegistrableAt(classes, list, k) == RegistrableAt(classes, list[1..], k - 1)
      {
        assert list[1..][k - 1] == list[k];
      }
      var first := NewCommand(classes, list[0], order);
      if RegistrableAt(classes, list, 0) {
        assert first.Normal?;
        assert r == Registration([Command(classes[list[0]].commandName, list[0])] + rest.added, rest.err);
        forall k | 1 <= k < |r.added|
          ensures r.added[k] == rest.added[k - 1]
        {
        }
        if rest.err.None? {
          assert forall k :: 0 <= k < |list| ==> RegistrableAt(classes, list, k);
        } else {
          assert !RegistrableAt(classes, list, |rest.added| + 1);
        }
      } else {
        assert first.Thrown?;
        assert r == Registration([], Some(first.error));
      }
    }
  }

  /** Classes already registered do not change what follows. */
  lemma {:induction false} RegisterAllAfterValid(classes: map<string, ClassInfo>, order: CheckOrder, a: seq<string>, b: seq<string>)
    requires RegisterAll(classes, a, order).err.None?
    ensures RegisterAll(classes, a + b, order) ==
      Registration(RegisterAll(classes, a, order).added + RegisterAll(classes, b, order).added,
                   RegisterAll(classes, b, order).err)
  {
    if a != [] {
      var c := NewCommand(classes, a[0], order).value;
      var ra := RegisterAll(classes, a[1..], order);
      assert RegisterAll(classes, a, order) == Registration([c] + ra.added, ra.err);
      assert (a + b)[0] == a[0];
      assert (a + b)[1..] == a[1..] + b;
      RegisterAllAfterValid(classes, order, a[1..], b);
      var rb := RegisterAll(classes, b, order);
      assert RegisterAll(classes, a + b, order) == Registration([c] + (ra.added + rb.added), rb.err);
      assert [c] + (ra.added + rb.added) == ([c] + ra.added) + rb.added;
    } else {
      assert a + b == b;
    }
  }

  /** Commands added so far, then one more class that registers. */
  lemma RegisterAllSnoc(before: seq<Command>, classes: map<string, ClassInfo>, order: CheckOrder,
                        done: seq<string>, className: string)
    requires RegisterAll(classes, done, order).err.None?
    requires Registrable(classes, className)
    ensures RegisterAll(classes, done + [className], order).err.None?
    ensures before + RegisterAll(classes, done + [className], order).added ==
      (before + RegisterAll(classes, done, order).added) + [Command(classes[className].commandName, className)]
  {
    RegisterAllAfterValid(classes, order, done, [className]);
    assert [className][1..] == [];
    ConcatAssoc(before, RegisterAll(classes, done, order).added, [Command(classes[className].commandName, className)]);
  }

  /** After classes that all registered, the first class that fails ends the
      loop, and its failure is the one reported. */
  lemma RegisterAllStopsAt(classes: map<string, ClassInfo>, order: CheckOrder, list: seq<string>, k: nat)
    requires k < |list| && RegisterAll(classes, list[..k], order).err.None?
    requires NewCommand(classes, list[k], order).Thrown?
    ensures RegisterAll(classes, list, order) ==
      Registration(RegisterAll(classes, list[..k], order).added, Some(NewCommand(classes, list[k], order).error))
  {
    assert list[..k] + list[k..] == list;
    assert RegisterAll(classes, list[k..], order) == Registration([], Some(NewCommand(classes, list[k], order).error)) by {
      assert list[k..][0] == list[k];
    }
    RegisterAllAfterValid(classes, order, list[..k], list[k..]);
    assert RegisterAll(classes, list[..k], order).added + [] == RegisterAll(classes, list[..k], order).added;
  }

  /** A class whose accessor returns `custom:run` is registered under that
      name in either order. A class that does not exist adds nothing: as
      written it fails with the `\Error` of `new`, and validated first it
      fails with the launcher's "not found" exception. */
  lemma RegistrationExamples(classes: map<string, ClassInfo>)
    requires classes == map["Valid\\Class" := ClassInfo(ConcreteClass, true, "custom:run")]
    ensures RegisterAll(classes, ["Valid\\Class"], NewFirst) == Registration([Command("custom:run", "Valid\\Class")], None)
    ensures RegisterAll(classes, ["Valid\\Class"], ValidateFirst) == Registration([Command("custom:run", "Valid\\Class")], None)
    ensures RegisterAll(classes, ["Bad\\Class"], NewFirst) ==
      Registration([], Some(Throwable(EngineError, 0, "Class \"Bad\\Class\" not found")))
    ensures RegisterAll(classes, ["Bad\\Class"], ValidateFirst) ==
      Registration([], Some(ConfigurationError(ClassNotFoundMessage("Bad\\Class"))))
  {
    assert "Class \"" + "Bad\\Class" + "\" not found" == "Class \"Bad\\Class\" not found";
    assert "Bad\\Class" !in classes;
    assert InstantiationError(classes, "Bad\\Class") == Throwable(EngineError, 0, "Class \"Bad\\Class\" not found");
  }
}
