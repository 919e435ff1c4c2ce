/** Test discovery: short-name expansion, class lookup and the flattening
    of (method, @Test) pairs into the run list. Class.forName and the
    reflective method and annotation enumeration are replaced by a
    registry that maps each class name to its methods, in the order
    getMethods() returns them, each with its @Test declarations. */
module Discovery {
  import opened Faults
  import opened Text
  import opened Eligibility

  /** One @Test declaration on a method, with the display name
      (RunnableTest.testInfo) that the runner prints for it. */
  datatype Declared = Declared(test: Test, info: string)

  /** A public method of a test class: its declaring class, its name and
      its @Test declarations in getAnnotationsByType order. */
  datatype MethodDecl = MethodDecl(className: string, name: string, tests: seq<Declared>)

  type Registry = map<string, seq<MethodDecl>>

  /** RunnableTest: one method paired with one of its declarations. */
  datatype RunnableTest = RunnableTest(className: string, methodName: string, test: Test, info: string)

  function Pair(m: MethodDecl, j: nat): RunnableTest
    requires j < |m.tests|
  {
    RunnableTest(m.className, m.name, m.tests[j].test, m.tests[j].info)
  }

  /** The entries one method contributes, in declaration order. */
  function Declarations(m: MethodDecl): seq<RunnableTest>
  {
    seq(|m.tests|, j requires 0 <= j < |m.tests| => Pair(m, j))
  }

  /** The run list of one class: method order, then declaration order. */
  function Flatten(ms: seq<MethodDecl>): seq<RunnableTest>
    decreases |ms|
  {
    if ms == [] then [] else Declarations(ms[0]) + Flatten(ms[1..])
  }

  /** The number of (method, declaration) pairs. */
  function DeclarationCount(ms: seq<MethodDecl>): nat
    decreases |ms|
  {
    if ms == [] then 0 else |ms[0].tests| + DeclarationCount(ms[1..])
  }

  lemma {:induction false} FlattenConcat(a: seq<MethodDecl>, b: seq<MethodDecl>)
    ensures Flatten(a + b) == Flatten(a) + Flatten(b)
    decreases |a|
  {
    if a == [] {
      assert a + b == b;
    } else {
      var x := Declarations(a[0]);
      assert (a + b)[0] == a[0] && (a + b)[1..] == a[1..] + b;
      FlattenConcat(a[1..], b);
      assert Flatten(a + b) == x + (Flatten(a[1..]) + Flatten(b));
      assert Flatten(a) == x + Flatten(a[1..]);
      assert x + (Flatten(a[1..]) + Flatten(b)) == (x + Flatten(a[1..])) + Flatten(b);
    }
  }

  /** Exactly one entry per (method, declaration) pair. */
  lemma {:induction false} FlattenLength(ms: seq<MethodDecl>)
    ensures |Flatten(ms)| == DeclarationCount(ms)
    decreases |ms|
  {
    if ms != [] {
      FlattenLength(ms[1..]);
    }
  }

  /** Declaration j of method i sits after every entry of the methods
      before it, at offset j. */
  lemma FlattenAt(ms: seq<MethodDecl>, i: nat, j: nat)
    requires i < |ms| && j < |ms[i].tests|
    ensures |Flatten(ms[..i])| + j < |Flatten(ms)|
    ensures Flatten(ms)[|Flatten(ms[..i])| + j] == Pair(ms[i], j)
  {
    assert ms == ms[..i] + ms[i..];
    FlattenConcat(ms[..i], ms[i..]);
    assert Flatten(ms[i..]) == Declarations(ms[i]) + Flatten(ms[i + 1..]) by {
      assert ms[i..][1..] == ms[i + 1..];
    }
  }

  /** getRunnableTests(Class): the nested loops over methods and their
      @Test declarations. */
  method GetRunnableTests(methods: seq<MethodDecl>) returns (rts: seq<RunnableTest>)
    ensures rts == Flatten(methods)
  {
    rts := [];
    for i := 0 to |methods|
      invariant rts == Flatten(methods[..i])
    {
      var m := methods[i];
      for j := 0 to |m.tests|
        invariant rts == Flatten(methods[..i]) + Declarations(m)[..j]
      {
        rts := rts + [Pair(m, j)];
        assert Declarations(m)[..j + 1] == Declarations(m)[..j] + [Pair(m, j)];
      }
      assert Declarations(m)[..|m.tests|] == Declarations(m);
      assert methods[..i + 1] == methods[..i] + [m];
      FlattenConcat(methods[..i], [m]);
    }
    assert methods[..|methods|] == methods;
  }

  // ---------------------------------------------------------------------
  // Test names on the command line

  /** A name with no '.' and a lower-case first letter names a package. */
  predicate IsShortName(name: string)
  {
    |name| > 0 && '.' !in name && IsLower(name[0])
  }

  /** The conversion from package name to class name: foo to test.foo.FooTests.
      A name without '.' must have a first character. */
  function ExpandName(name: string): (r: Result<string>)
    ensures r.Err? <==> name == []
    ensures r.Err? ==> r.error == EmptyTestName
    ensures r.Ok? && !IsShortName(name) ==> r.value == name
    ensures IsShortName(name) ==> r.Ok? && r.value == "test." + name + "." + [UpperChar(name[0])] + name[1..] + "Tests"
  {
    if '.' in name then Ok(name)
    else if |name| == 0 then Err(EmptyTestName)
    else if IsLower(name[0]) then Ok("test." + name + "." + [UpperChar(name[0])] + name[1..] + "Tests")
    else Ok(name)
  }

  /** Expansion is idempotent: an expanded name is never short again. */
  lemma ExpandNameIdempotent(name: string)
    requires ExpandName(name).Ok?
    ensures ExpandName(ExpandName(name).value) == ExpandName(name)
  {
    if IsShortName(name) {
      var full := ExpandName(name).value;
      assert full[4] == '.';
    }
  }

  lemma ExpandNameExample()
    ensures ExpandName("foo") == Ok("test.foo.FooTests")
    ensures ExpandName("one.profiler.test.Foo") == Ok("one.profiler.test.Foo")
    ensures ExpandName("FooTests") == Ok("FooTests")
  {
    assert '.' !in "foo";
    assert UpperChar('f') == 'F';
    assert "foo"[1..] == "oo";
    assert "test." + "foo" + "." + [UpperChar("foo"[0])] + "foo"[1..] + "Tests" == "test.foo.FooTests";
    assert '.' in "one.profiler.test.Foo" by { assert "one.profiler.test.Foo"[3] == '.'; }
    assert '.' !in "FooTests";
  }

  /** The run list of one command-line name. */
  function ResolveOne(arg: string, reg: Registry): Result<seq<RunnableTest>>
  {
    match ExpandName(arg)
    case Err(e) => Err(e)
    case Ok(name) => if name in reg then Ok(Flatten(reg[name])) else Err(ClassNotFound(name))
  }

  /** Fail-fast concatenation of run lists: the first failure wins,
      otherwise the lists are concatenated in order. */
  function Gather(rs: seq<Result<seq<RunnableTest>>>): Result<seq<RunnableTest>>
    decreases |rs|
  {
    if rs == [] then Ok([])
    else
      match Gather(rs[..|rs| - 1])
      case Err(e) => Err(e)
      case Ok(prefix) =>
        match rs[|rs| - 1]
        case Err(e) => Err(e)
        case Ok(tail) => Ok(prefix + tail)
  }

  lemma GatherSingle(x: Result<seq<RunnableTest>>)
    ensures Gather([x]) == x
  {
    assert [x][..0] == [];
    if x.Ok? {
      assert [] + x.value == x.value;
    }
  }

  lemma {:induction false} GatherOk(rs: seq<Result<seq<RunnableTest>>>)
    ensures Gather(rs).Ok? <==> forall k :: 0 <= k < |rs| ==> rs[k].Ok?
    decreases |rs|
  {
    if rs != [] {
      var init := rs[..|rs| - 1];
      GatherOk(init);
      assert forall k :: 0 <= k < |init| ==> init[k] == rs[k];
    }
  }

  lemma {:induction false} GatherFirstError(rs: seq<Result<seq<RunnableTest>>>)
    requires Gather(rs).Err?
    ensures exists k :: 0 <= k < |rs| && rs[k] == Err(Gather(rs).error)
                        && forall j :: 0 <= j < k ==> rs[j].Ok?
    decreases |rs|
  {
    var init := rs[..|rs| - 1];
    assert forall k :: 0 <= k < |init| ==> init[k] == rs[k];
    if Gather(init).Err? {
      GatherFirstError(init);
    } else {
      GatherOk(init);
      assert rs[|rs| - 1] == Err(Gather(rs).error);
    }
  }

  lemma {:induction false} GatherConcat(r1: seq<Result<seq<RunnableTest>>>, r2: seq<Result<seq<RunnableTest>>>)
    requires Gather(r1).Ok? && Gather(r2).Ok?
    ensures Gather(r1 + r2) == Ok(Gather(r1).value + Gather(r2).value)
    decreases |r2|
  {
    if r2 == [] {
      assert r1 + r2 == r1;
      assert Gather(r1).value + [] == Gather(r1).value;
    } else {
      var init, last := r2[..|r2| - 1], r2[|r2| - 1];
      assert (r1 + r2)[..|r1 + r2| - 1] == r1 + init;
      assert (r1 + r2)[|r1 + r2| - 1] == last;
      assert Gather(init).Ok? && last.Ok?;
      GatherConcat(r1, init);
      var p, q, x := Gather(r1).value, Gather(init).value, last.value;
      assert Gather(r2) == Ok(q + x);
      assert Gather(r1 + r2) == Ok((p + q) + x);
      assert (p + q) + x == p + (q + x);
    }
  }

  lemma {:induction false} GatherPrefixError(rs: seq<Result<seq<RunnableTest>>>, k: nat)
    requires k <= |rs| && Gather(rs[..k]).Err?
    ensures Gather(rs) == Gather(rs[..k])
    decreases |rs| - k
  {
    if k < |rs| {
      assert rs[..k + 1][..k] == rs[..k];
      GatherPrefixError(rs, k + 1);
    } else {
      assert rs[..k] == rs;
    }
  }

  /** The outcome of each command-line name, in order. */
  function Resolved(args: seq<string>, reg: Registry): (r: seq<Result<seq<RunnableTest>>>)
    ensures |r| == |args|
  {
    seq(|args|, k requires 0 <= k < |args| => ResolveOne(args[k], reg))
  }

  /** getRunnableTests(String[]): the run lists of all names, in the order
      given; the first name that fails aborts discovery. */
  function ResolveAll(args: seq<string>, reg: Registry): (r: Result<seq<RunnableTest>>)
    ensures args == [] ==> r == Ok([])
    ensures |args| == 1 ==> r == ResolveOne(args[0], reg)
  {
    var rs := Resolved(args, reg);
    if |args| == 1 then
      assert rs == [ResolveOne(args[0], reg)];
      GatherSingle(ResolveOne(args[0], reg));
      Gather(rs)
    else Gather(rs)
  }

  /** Discovery succeeds exactly when every name resolves. */
  lemma ResolveAllOk(args: seq<string>, reg: Registry)
    ensures ResolveAll(args, reg).Ok? <==> forall k :: 0 <= k < |args| ==> ResolveOne(args[k], reg).Ok?
  {
    var rs := Resolved(args, reg);
    GatherOk(rs);
    assert forall k :: 0 <= k < |args| ==> rs[k] == ResolveOne(args[k], reg);
  }

  /** A failure is the failure of the first name that does not resolve. */
  lemma ResolveAllFirstError(args: seq<string>, reg: Registry)
    requires ResolveAll(args, reg).Err?
    ensures exists k :: 0 <= k < |args| && ResolveOne(args[k], reg) == Err(ResolveAll(args, reg).error)
                        && forall j :: 0 <= j < k ==> ResolveOne(args[j], reg).Ok?
  {
    var rs := Resolved(args, reg);
    GatherFirstError(rs);
    var k :| 0 <= k < |rs| && rs[k] == Err(Gather(rs).error) && forall j :: 0 <= j < k ==> rs[j].Ok?;
    assert forall j :: 0 <= j <= k ==> rs[j] == ResolveOne(args[j], reg);
  }

  /** Concatenating name lists concatenates run lists: classes are run in
      the order their names were given. */
  lemma ResolveAllConcat(a: seq<string>, b: seq<string>, reg: Registry)
    requires ResolveAll(a, reg).Ok? && ResolveAll(b, reg).Ok?
    ensures ResolveAll(a + b, reg) == Ok(ResolveAll(a, reg).value + ResolveAll(b, reg).value)
  {
    assert Resolved(a + b, reg) == Resolved(a, reg) + Resolved(b, reg);
    GatherConcat(Resolved(a, reg), Resolved(b, reg));
  }

  /** getRunnableTests(String[]): the loop over the command-line names. */
  method GetRunnableTestsByName(args: seq<string>, reg: Registry) returns (r: Result<seq<RunnableTest>>)
    ensures r == ResolveAll(args, reg)
  {
    ghost var rs := Resolved(args, reg);
    var rts: seq<RunnableTest> := [];
    for k := 0 to |args|
      invariant Gather(rs[..k]) == Ok(rts)
    {
      assert rs[..k + 1][..k] == rs[..k] && rs[k] == ResolveOne(args[k], reg);
      var testName := args[k];
      if '.' !in testName {
        if |testName| == 0 {
          GatherPrefixError(rs, k + 1);
          return Err(EmptyTestName);
        }
        if IsLower(testName[0]) {
          testName := "test." + testName + "." + [UpperChar(testName[0])] + testName[1..] + "Tests";
        }
      }
      if testName !in reg {
        GatherPrefixError(rs, k + 1);
        return Err(ClassNotFound(testName));
      }
      var found := GetRunnableTests(reg[testName]);
      rts := rts + found;
    }
    assert rs[..|args|] == rs;
    r := Ok(rts);
  }
}
