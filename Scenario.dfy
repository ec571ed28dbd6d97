/**
 A worked diagram: the entities Student (primary key `id`, attribute `name`)
 and Course (attribute `code`), and the relationship Enrolls between them,
 one-to-many towards Student and many-to-many towards Course.
 */
module Scenario {
  import opened Wrappers
  import opened Graph
  import opened ErModel
  import opened Description

  function Student(): Entity
  {
    Entity("Student", [Attribute("id", pk := true), Attribute("name")])
  }

  function Course(): Entity
  {
    Entity("Course", [Attribute("code")])
  }

  function Enrolls(): Relationship
  {
    Relationship("Enrolls", [Student(), Course()], [ONE_TO_MANY, MANY_TO_MANY])
  }

  /** Student's block: its box, the underlined key `id`, then `name`. */
  lemma StudentDecls()
    ensures EntityDecls(Student()) == [
      NodeDecl("Student", "Student", "box", None, None),
      NodeDecl("Studentid", ['i', LOW_LINE, 'd', LOW_LINE], "ellipse", None, None),
      EdgeDecl("Student", "Studentid", "none"),
      NodeDecl("Studentname", "name", "ellipse", None, None),
      EdgeDecl("Student", "Studentname", "none")]
  {
    var id, name := Attribute("id", pk := true), Attribute("name");
    assert "Student" + "id" == "Studentid" && "Student" + "name" == "Studentname";
    assert Underline("id") == ['i', LOW_LINE, 'd', LOW_LINE] by {
      assert Underline("d") == ['d', LOW_LINE] + Underline([]);
    }
    var idDecls := [NodeDecl("Studentid", ['i', LOW_LINE, 'd', LOW_LINE], "ellipse", None, None),
                    EdgeDecl("Student", "Studentid", "none")];
    var nameDecls := [NodeDecl("Studentname", "name", "ellipse", None, None),
                      EdgeDecl("Student", "Studentname", "none")];
    assert AttrsDecls([id], "Student") == idDecls by {
      assert [id][..0] == [];
    }
    assert AttrsDecls([id, name], "Student") == idDecls + nameDecls by {
      assert [id, name][..1] == [id];
    }
  }

  /** Course's block: its box, then `code`. */
  lemma CourseDecls()
    ensures EntityDecls(Course()) == [
      NodeDecl("Course", "Course", "box", None, None),
      NodeDecl("Coursecode", "code", "ellipse", None, None),
      EdgeDecl("Course", "Coursecode", "none")]
  {
    var code := Attribute("code");
    assert "Course" + "code" == "Coursecode";
    assert [code][..0] == [];
  }

  /** Enrolls' block: its diamond, then one edge per entity with that entity's arrowhead. */
  lemma EnrollsDecls()
    ensures RelationshipDecls(Enrolls()) == [
      NodeDecl("Enrolls", "Enrolls", "diamond", None, None),
      EdgeDecl("Enrolls", "Student", "normal"),
      EdgeDecl("Enrolls", "Course", "none")]
  {
    var r := Enrolls();
    assert EntityEdges(r) == [EdgeDecl("Enrolls", "Student", "normal"), EdgeDecl("Enrolls", "Course", "none")];
  }

  /**
   The full description of the worked diagram: the diamond and its two edges
   (a solid arrowhead towards Student, none towards Course), then each box
   followed by its attribute ellipses, the primary key's label underlined.
   */
  lemma EnrollsDescription()
    ensures DiagramDecls([Enrolls()], [Student(), Course()]) == [
      NodeDecl("Enrolls", "Enrolls", "diamond", None, None),
      EdgeDecl("Enrolls", "Student", "normal"),
      EdgeDecl("Enrolls", "Course", "none"),
      NodeDecl("Student", "Student", "box", None, None),
      NodeDecl("Studentid", ['i', LOW_LINE, 'd', LOW_LINE], "ellipse", None, None),
      EdgeDecl("Student", "Studentid", "none"),
      NodeDecl("Studentname", "name", "ellipse", None, None),
      EdgeDecl("Student", "Studentname", "none"),
      NodeDecl("Course", "Course", "box", None, None),
      NodeDecl("Coursecode", "code", "ellipse", None, None),
      EdgeDecl("Course", "Coursecode", "none")]
  {
    var s, c, r := Student(), Course(), Enrolls();
    StudentDecls();
    CourseDecls();
    EnrollsDecls();
    assert RelationshipsDecls([r]) == RelationshipDecls(r) by {
      assert [r][..0] == [];
    }
    assert EntitiesDecls([s]) == EntityDecls(s) by {
      assert [s][..0] == [];
    }
    assert EntitiesDecls([s, c]) == EntityDecls(s) + EntityDecls(c) by {
      assert [s, c][..1] == [s];
    }
  }
}
