/** A worked example of the animation compiler: a class whose `Position`
    property is a struct of two doubles. */
module AnimationExamples {
  import opened Basics
  import opened Xml
  import opened Diagnostics
  import opened Reflection
  import opened WorkflowAst
  import opened AnimationLoader
  import opened AnimationValidation
  import opened AnimationEnumeration
  import opened AnimationCompiler

  function DoubleType(): TypeDesc
  {
    TypeDesc("system::Double", Primitive(Double), [], [])
  }

  function PointType(): TypeDesc
  {
    TypeDesc("demo::Point", Struct, [
      PropInfo("x", DoubleType(), true, true, true, false),
      PropInfo("y", DoubleType(), true, true, true, false)], [])
  }

  function PositionProperty(): PropInfo
  {
    PropInfo("Position", PointType(), true, true, true, false)
  }

  function AnimatedType(): TypeDesc
  {
    TypeDesc("demo::Anim", Class, [PositionProperty()], [])
  }

  function Animation(targets: seq<Target>): GradientAnimation
  {
    GradientAnimation(NoPos, "demo::AnimGradient", At(1, 20), "demo::Anim", At(1, 40), "", NoPos, targets)
  }

  /** The `Position` target enumerates the two members of the struct, each
      read through `Position` first. */
  lemma PositionLeaves()
    ensures Resolves(AnimatedType(), [Target("Position", At(3, 10), "", NoPos)])
    ensures PropertiesLeaves(AnimatedType(), [Target("Position", At(3, 10), "", NoPos)])
      == [Leaf(["Position", "x"], PointType().properties[0]), Leaf(["Position", "y"], PointType().properties[1])]
  {
    var t := Target("Position", At(3, 10), "", NoPos);
    var point, path := PointType(), ["Position"];
    var x, y := point.properties[0], point.properties[1];
    assert FindProperty(AnimatedType(), "Position") == Some(PositionProperty());
    assert !Skipped(x) by { assert |"x"| != |"value"|; }
    assert !Skipped(y) by { assert |"y"| != |"value"|; }
    assert MemberLeaves(x, path) == [Leaf(["Position", "x"], x)] by {
      assert path + [x.name] == ["Position", "x"];
    }
    assert MemberLeaves(y, path) == [Leaf(["Position", "y"], y)] by {
      assert path + [y.name] == ["Position", "y"];
    }
    assert PropsLeaves(point, 1, path) == [Leaf(["Position", "x"], x)] by {
      assert PropsLeaves(point, 0, path) == [];
    }
    assert PropsLeaves(point, 2, path) == [Leaf(["Position", "x"], x), Leaf(["Position", "y"], y)];
    assert TypeLeaves(point, path) == PropsLeaves(point, 2, path) by {
      assert BasesLeaves(point, 0, path) == [];
    }
    assert MemberLeaves(PositionProperty(), []) == TypeLeaves(point, path) by {
      assert [] + ["Position"] == path;
    }
    assert [t][..0] == [];
  }

  /** With an implementation, `Interpolate` declares `<animation>_Position_x`
      and `<animation>_Position_y`, each cast back to `system::Double`. */
  lemma PositionLocals()
    ensures Lerp(Leaf(["Position", "x"], PointType().properties[0])).name == "<animation>_Position_x"
    ensures Lerp(Leaf(["Position", "y"], PointType().properties[1])).name == "<animation>_Position_y"
    ensures Lerp(Leaf(["Position", "x"], PointType().properties[0])).init.castType == ValueOf("system::Double")
  {
    UnderscoredPair("Position", "x");
    UnderscoredPair("Position", "y");
  }

  lemma UnderscoredPair(a: string, b: string)
    ensures Underscored([a, b]) == "_" + a + "_" + b
  {
    assert [a, b][..1] == [a] && [a][..0] == [];
    assert Underscored([a]) == "" + "_" + a;
    assert Underscored([a, b]) == Underscored([a]) + "_" + b;
    assert "" + "_" + a == "_" + a;
  }

  /** A target naming no property is one error at its name; the class is
      still emitted. */
  lemma UnknownTarget()
    ensures var anim := Animation([Target("Size", At(4, 10), "", NoPos)]);
      var types := map["demo::Anim" := AnimatedType()];
      CompileErrors(anim, types, false, (s, p) => Parsed(None, [])) == [Diag(At(4, 10), PropertyDoesNotExist("Size"))] &&
      Compiled(anim, types, "demo", false, (s, p) => Parsed(None, [])).Some?
  {
    var t := Target("Size", At(4, 10), "", NoPos);
    assert FindProperty(AnimatedType(), "Size") == None by {
      assert "Position" != "Size" by { assert |"Position"| != |"Size"|; }
      assert FindOwn([PositionProperty()], "Size") == None by {
        assert [PositionProperty()][1..] == [];
      }
    }
    assert [t][..0] == [];
  }

  /** An unknown type is one error at the `Type` attribute and no module. */
  lemma UnknownType()
    ensures var anim := Animation([]);
      CompileErrors(anim, map[], true, (s, p) => Parsed(None, [])) == [Diag(At(1, 40), TypeDoesNotExist("demo::Anim"))] &&
      Compiled(anim, map[], "demo", true, (s, p) => Parsed(None, [])) == None
  {
  }
}
