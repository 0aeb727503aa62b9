/** The menus of the console loop: the option maps it shows, how it reads a
    category or question choice, and the placeholder substitution it applies
    to a category's questions. */
module Menu {
  import opened Wrappers
  import opened Text
  import opened Dicts
  import opened Truth

  // ---------------------------------------------------------------------------
  // Option maps

  /** The main menu: `"1"` .. `"n"` for the categories in order, then the
      three fixed entries. */
  method MainMenuOptions(categories: seq<string>) returns (options: ODict<string>)
    ensures |options| == |categories| + 3 && DistinctKeys(options)
    ensures forall i :: 0 <= i < |categories| ==> options[i] == (NatToString(i + 1), categories[i])
    ensures options[|categories|..] == [("G", "General Questions"), ("U", "Update Application Info"), ("Q", "Exit")]
  {
    options := [];
    for i := 0 to |categories|
      invariant |options| == i
      invariant forall j :: 0 <= j < i ==> options[j] == (NatToString(j + 1), categories[j])
    {
      assert !HasKey(options, NatToString(i + 1)) by {
        forall j | 0 <= j < i ensures options[j].0 != NatToString(i + 1) {
          if NatToString(j + 1) == NatToString(i + 1) {
            NatToStringInjective(j + 1, i + 1);
          }
        }
      }
      PutNew(options, NatToString(i + 1), categories[i]);
      options := Put(options, NatToString(i + 1), categories[i]);
    }
    var numbered := options;
    forall j | 0 <= j < |numbered| ensures |numbered[j].0| >= 1 && IsAsciiDigit(numbered[j].0[0]) {
      assert numbered[j].0 == NatToString(j + 1);
    }
    FixedEntriesAppended(numbered, ("G", "General Questions"), ("U", "Update Application Info"), ("Q", "Exit"));
    options := Put(options, "G", "General Questions");
    options := Put(options, "U", "Update Application Info");
    options := Put(options, "Q", "Exit");
    NumberedDistinct(categories, options);
  }

  /** Keys that start with a character no numbered key starts with are new
      beside the numbered ones, so assigning them appends. */
  lemma FixedEntriesAppended(numbered: ODict<string>, g: (string, string), u: (string, string), q: (string, string))
    requires forall j :: 0 <= j < |numbered| ==> |numbered[j].0| >= 1 && IsAsciiDigit(numbered[j].0[0])
    requires |g.0| == |u.0| == |q.0| == 1 && g.0 != u.0 && g.0 != q.0 && u.0 != q.0
    requires !IsAsciiDigit(g.0[0]) && !IsAsciiDigit(u.0[0]) && !IsAsciiDigit(q.0[0])
    ensures Put(Put(Put(numbered, g.0, g.1), u.0, u.1), q.0, q.1) == numbered + [g, u, q]
  {
    assert !HasKey(numbered, g.0) by {
      forall j | 0 <= j < |numbered| ensures numbered[j].0 != g.0 {
        assert numbered[j].0[0] != g.0[0];
      }
    }
    PutNew(numbered, g.0, g.1);
    var d1 := numbered + [g];
    assert !HasKey(d1, u.0) by {
      forall j | 0 <= j < |d1| ensures d1[j].0 != u.0 {
        if j < |numbered| { assert d1[j] == numbered[j] && d1[j].0[0] != u.0[0]; }
      }
    }
    PutNew(d1, u.0, u.1);
    var d2 := d1 + [u];
    assert !HasKey(d2, q.0) by {
      forall j | 0 <= j < |d2| ensures d2[j].0 != q.0 {
        if j < |numbered| { assert d2[j] == numbered[j] && d2[j].0[0] != q.0[0]; }
      }
    }
    PutNew(d2, q.0, q.1);
    assert d2 + [q] == numbered + [g, u, q];
  }

  /** Numbered keys followed by the three letters are pairwise distinct. */
  lemma NumberedDistinct(categories: seq<string>, options: ODict<string>)
    requires |options| == |categories| + 3
    requires forall i :: 0 <= i < |categories| ==> options[i] == (NatToString(i + 1), categories[i])
    requires options[|categories|..] == [("G", "General Questions"), ("U", "Update Application Info"), ("Q", "Exit")]
    ensures DistinctKeys(options)
  {
    var n := |categories|;
    assert options[n] == ("G", "General Questions") && options[n + 1] == ("U", "Update Application Info");
    assert options[n + 2] == ("Q", "Exit");
    forall a, b | 0 <= a < b < |options| ensures options[a].0 != options[b].0 {
      if b < n {
        if NatToString(a + 1) == NatToString(b + 1) {
          NatToStringInjective(a + 1, b + 1);
        }
      } else if a < n {
        assert options[a].0[0] != options[b].0[0];
      }
    }
  }

  /** A question as the category menu lists it: without its double quotes,
      followed by the comma the rendering turns into a line break. */
  function Listed(question: string): (r: string)
    ensures '"' !in r && |r| >= 1 && r[|r| - 1] == ','
  {
    ReplaceRemovesChar(question, '"', "");
    Replace(question, "\"", "") + ","
  }

  /** What the category menu shows for the entry keyed `key`. */
  function Shown(key: string, question: string): string {
    if key == "Q" then "Return to Main Menu" else Listed(question)
  }

  /** A category's menu: each question listed under its key, then `"Q"`,
      which takes the place of a question keyed `"Q"` if there is one. */
  method CategoryMenuOptions(questions: ODict<string>) returns (options: ODict<string>)
    requires DistinctKeys(questions)
    ensures DistinctKeys(options)
    ensures |options| == if HasKey(questions, "Q") then |questions| else |questions| + 1
    ensures forall i :: 0 <= i < |questions| ==> options[i] == (questions[i].0, Shown(questions[i].0, questions[i].1))
    ensures !HasKey(questions, "Q") ==> options[|questions|] == ("Q", "Return to Main Menu")
  {
    options := [];
    for i := 0 to |questions|
      invariant |options| == i
      invariant forall j :: 0 <= j < i ==> options[j] == (questions[j].0, Listed(questions[j].1))
    {
      PutNew(options, questions[i].0, Listed(questions[i].1));
      options := Put(options, questions[i].0, Listed(questions[i].1));
    }
    var listed := options;
    assert DistinctKeys(listed);
    if HasKey(questions, "Q") {
      var j :| 0 <= j < |questions| && questions[j].0 == "Q";
      PutAt(listed, "Q", "Return to Main Menu", j);
    } else {
      assert !HasKey(listed, "Q");
      PutNew(listed, "Q", "Return to Main Menu");
    }
    PutDistinct(listed, "Q", "Return to Main Menu");
    options := Put(options, "Q", "Return to Main Menu");
  }

  /** No entry of a category menu shows a double quote. */
  lemma CategoryMenuUnquoted(key: string, question: string)
    ensures '"' !in Shown(key, question)
  {
    if key == "Q" {
      assert "Return to Main Menu" == ['R'] + "eturn to Main Menu";
    }
  }

  // ---------------------------------------------------------------------------
  // Choices

  /** The outcome of a main-menu choice. */
  datatype MainChoice =
    | Quit
    | General
    | Update
    | Category(name: string)
    | NotRecognized
    | Raises(error: string)

  /** The main loop's reading of a choice: the lower-case letters it matches,
      then `int(choice)`, which raises on anything else, accepted when it
      numbers a category. */
  function CategoryChoice(choice: string, categories: seq<string>): (c: MainChoice)
    ensures c.Category? <==>
              choice != "q" && choice != "g" && choice != "u"
              && PyInt(choice).Some? && 1 <= PyInt(choice).value <= |categories|
    ensures c.Category? ==> c.name == categories[PyInt(choice).value - 1]
    ensures c.Raises? <==> choice != "q" && choice != "g" && choice != "u" && PyInt(choice).None?
  {
    if choice == "q" then Quit
    else if choice == "g" then General
    else if choice == "u" then Update
    else
      match PyInt(choice)
      case None => Raises("ValueError: invalid literal for int() with base 10: '" + choice + "'")
      case Some(n) => if n <= |categories| && n > 0 then Category(categories[n - 1]) else NotRecognized
  }

  /** The key the main menu shows for category `i` selects that category. */
  lemma MenuKeySelects(categories: seq<string>, i: nat)
    requires i < |categories|
    ensures CategoryChoice(NatToString(i + 1), categories) == Category(categories[i])
  {
    var key := NatToString(i + 1);
    PyIntOfNatToString(i + 1);
    assert key[0] != 'q' && key[0] != 'g' && key[0] != 'u';
    assert key != "q" && key != "g" && key != "u";
  }

  /** The letters the main menu shows are upper case but only lower case is
      matched, so typing a shown letter reaches `int(...)` and raises. */
  lemma ShownLettersRaise(categories: seq<string>)
    ensures CategoryChoice("G", categories).Raises?
    ensures CategoryChoice("U", categories).Raises?
    ensures CategoryChoice("Q", categories).Raises?
  {
    PyIntAlphabetFails("G", 'G');
    PyIntAlphabetFails("U", 'U');
    PyIntAlphabetFails("Q", 'Q');
  }

  /** A string holding a character `int()` never accepts does not parse. */
  lemma PyIntAlphabetFails(s: string, c: char)
    requires |s| == 1 && s[0] == c && !IsSpace(c) && !IsAsciiDigit(c) && c != '_' && c != '+' && c != '-'
    ensures PyInt(s).None?
  {
    if PyInt(s).Some? {
      PyIntAlphabet(s);
      assert false;
    }
  }

  /** The outcome of a question choice. */
  datatype QuestionChoice = Back | Send(question: string) | Unknown

  /** The question loop's reading of a choice: `q` in either case goes back;
      the test of `int(choice) - 1` against the keys compares an integer
      with string keys and never holds, so a choice sends the question whose
      key is the typed text, and any other text is not recognised. */
  function ChooseQuestion(choice: string, questions: ODict<string>): (c: QuestionChoice)
    ensures c.Back? <==> choice == "q" || choice == "Q"
    ensures c.Send? <==> choice != "q" && choice != "Q" && HasKey(questions, choice)
    ensures c.Send? ==> c.question == Get(questions, choice)
  {
    if choice == "q" || choice == "Q" then Back
    else if HasKey(questions, choice) then Send(Get(questions, choice))
    else Unknown
  }

  /** Each key the category menu shows, other than the way back, sends the
      question stored under it; `"Q"` goes back. */
  lemma ShownKeySends(questions: ODict<string>, i: nat)
    requires DistinctKeys(questions) && i < |questions|
    ensures questions[i].0 != "q" && questions[i].0 != "Q" ==>
              ChooseQuestion(questions[i].0, questions) == Send(questions[i].1)
    ensures ChooseQuestion("Q", questions) == Back
  {
    GetAt(questions, i);
  }

  /** A digit choice is looked up as text: `"1"` selects the question keyed
      `"1"`, not the one at position 0. */
  lemma DigitChoiceByKey(questions: ODict<string>, n: nat)
    requires HasKey(questions, NatToString(n))
    ensures ChooseQuestion(NatToString(n), questions) == Send(Get(questions, NatToString(n)))
  {
    var key := NatToString(n);
    assert IsAsciiDigit(key[0]);
  }

  // ---------------------------------------------------------------------------
  // Placeholder substitution

  /** The placeholder naming field `f`: its option name in angle brackets. */
  function Tag(f: Field): string {
    "<" + Location(f).1 + ">"
  }

  /** One opening bracket, first, and one closing bracket, last. */
  predicate IsTag(t: string) {
    |t| >= 2 && t[0] == '<' && t[|t| - 1] == '>'
    && forall i :: 0 < i < |t| - 1 ==> t[i] != '<' && t[i] != '>'
  }

  /** A name without brackets, put in brackets, has the tag shape. */
  lemma Bracketed(name: string)
    requires forall i :: 0 <= i < |name| ==> name[i] != '<' && name[i] != '>'
    ensures IsTag("<" + name + ">") && ("<" + name + ">")[1..|name| + 1] == name
  {
    var t := "<" + name + ">";
    forall i | 0 < i < |t| - 1 ensures t[i] != '<' && t[i] != '>' {
      assert t[i] == name[i - 1];
    }
  }

  /** Option names are lower-case words joined by `_`. */
  lemma OptionName(f: Field)
    ensures forall i :: 0 <= i < |Location(f).1| ==> Location(f).1[i] == '_' || 'a' <= Location(f).1[i] <= 'z'
  {
  }

  /** Every placeholder has the tag shape, and distinct fields have distinct
      placeholders. */
  lemma TagShape(f: Field, g: Field)
    ensures IsTag(Tag(f))
    ensures Tag(f) == Tag(g) ==> f == g
  {
    OptionName(f);
    OptionName(g);
    Bracketed(Location(f).1);
    Bracketed(Location(g).1);
    FieldKeys(f, g);
  }

  /** One `replace` call: field `f`'s placeholder by the field's value. */
  function Step(question: string, f: Field, truth: SingleSourceOfTruth): string
    reads truth
  {
    Replace(question, Tag(f), truth.Value(f))
  }

  /** The six `replace` calls, in the order of the source. */
  function SixSteps(question: string, truth: SingleSourceOfTruth): string
    reads truth
  {
    var q1 := Step(question, JobName, truth);
    var q2 := Step(q1, JobDescription, truth);
    var q3 := Step(q2, CompanyName, truth);
    var q4 := Step(q3, CompanyDescription, truth);
    var q5 := Step(q4, Resume, truth);
    Step(q5, CompanyWebsite, truth)
  }

  /** The question after the six replacements, applied when it holds both a
      `<` and a `>`. */
  function Substituted(question: string, truth: SingleSourceOfTruth): (r: string)
    reads truth
    ensures '<' !in question || '>' !in question ==> r == question
  {
    if '<' in question && '>' in question then SixSteps(question, truth) else question
  }

  /** The substitution loop over a category's questions, rewriting each
      value where it stands. */
  method SubstitutePlaceholders(questions: array<(string, string)>, truth: SingleSourceOfTruth)
    modifies questions
    ensures forall i :: 0 <= i < questions.Length ==>
              questions[i] == (old(questions[i]).0, Substituted(old(questions[i]).1, truth))
  {
    for i := 0 to questions.Length
      invariant forall j :: 0 <= j < i ==> questions[j] == (old(questions[j]).0, Substituted(old(questions[j]).1, truth))
      invariant forall j :: i <= j < questions.Length ==> questions[j] == old(questions[j])
    {
      var (key, question) := questions[i];
      ghost var original := question;
      if '<' in question && '>' in question {
        question := Step(question, JobName, truth);
        question := Step(question, JobDescription, truth);
        question := Step(question, CompanyName, truth);
        question := Step(question, CompanyDescription, truth);
        question := Step(question, Resume, truth);
        question := Step(question, CompanyWebsite, truth);
        assert question == Substituted(original, truth);
        questions[i] := (key, question);
      } else {
        assert questions[i] == (key, Substituted(question, truth));
      }
    }
  }

  /** A question as the text between its placeholders: literal text, or the
      placeholder of a field. */
  datatype Piece = Literal(text: string) | Placeholder(field: Field)

  /** The question the pieces spell. */
  function Template(ps: seq<Piece>): string {
    if ps == [] then ""
    else (match ps[0] case Literal(t) => t case Placeholder(f) => Tag(f)) + Template(ps[1..])
  }

  /** The position of a field's `replace` call among the six. */
  function Rank(f: Field): nat {
    match f
    case JobName => 0
    case JobDescription => 1
    case CompanyName => 2
    case CompanyDescription => 3
    case Resume => 4
    case CompanyWebsite => 5
  }

  /** The pieces after the first `n` replacement steps: the placeholders of
      the fields replaced so far hold the fields' values, the others are
      still placeholders. */
  function Partial(ps: seq<Piece>, n: nat, truth: SingleSourceOfTruth): string
    reads truth
  {
    if ps == [] then ""
    else
      (match ps[0]
       case Literal(t) => t
       case Placeholder(f) => if Rank(f) < n then truth.Value(f) else Tag(f))
      + Partial(ps[1..], n, truth)
  }

  /** The question with every placeholder replaced by its field's value. */
  function Filled(ps: seq<Piece>, truth: SingleSourceOfTruth): string
    reads truth
  {
    Partial(ps, 6, truth)
  }

  /** No literal text holds a `<`, and neither does the value of any
      placeholder's field. */
  predicate Plain(ps: seq<Piece>, truth: SingleSourceOfTruth)
    reads truth
  {
    forall i :: 0 <= i < |ps| ==>
      match ps[i]
      case Literal(t) => '<' !in t
      case Placeholder(f) => '<' !in truth.Value(f)
  }

  /** Before any replacement, the pieces spell the template. */
  lemma {:induction false} PartialNone(ps: seq<Piece>, truth: SingleSourceOfTruth)
    ensures Partial(ps, 0, truth) == Template(ps)
  {
    if ps != [] {
      PartialNone(ps[1..], truth);
    }
  }

  /** A template without `<` has no placeholder, so no replacement changes it. */
  lemma {:induction false} PartialFree(ps: seq<Piece>, n: nat, truth: SingleSourceOfTruth)
    requires '<' !in Template(ps)
    ensures Partial(ps, n, truth) == Template(ps)
  {
    if ps != [] {
      var rest := Template(ps[1..]);
      match ps[0]
      case Literal(t) =>
        assert Template(ps) == t + rest;
        assert forall i :: 0 <= i < |rest| ==> rest[i] == Template(ps)[|t| + i];
        PartialFree(ps[1..], n, truth);
      case Placeholder(f) =>
        assert false;
    }
  }

  /** When the literal text holds no `<`, a `<` in the template comes from a
      placeholder, which also brings a `>`. */
  lemma {:induction false} OpenedIsClosed(ps: seq<Piece>, truth: SingleSourceOfTruth)
    requires Plain(ps, truth) && '<' in Template(ps)
    ensures '>' in Template(ps)
  {
    var rest := Template(ps[1..]);
    match ps[0]
    case Literal(t) =>
      assert Template(ps) == t + rest;
      assert '<' !in t;
      assert '<' in rest;
      assert Plain(ps[1..], truth) by {
        forall i | 0 <= i < |ps[1..]| ensures match ps[1..][i] case Literal(t) => '<' !in t case Placeholder(f) => '<' !in truth.Value(f) {
          assert ps[1..][i] == ps[i + 1];
        }
      }
      OpenedIsClosed(ps[1..], truth);
    case Placeholder(f) =>
      TagShape(f, f);
      assert Template(ps) == Tag(f) + rest;
      assert Template(ps)[|Tag(f)| - 1] == '>';
  }

  /** A placeholder of a field other than `g` is copied by `g`'s step. */
  lemma OtherTagHead(f: Field, t: string, g: Field, v: string)
    requires f != g
    ensures Replace(Tag(f) + t, Tag(g), v) == Tag(f) + Replace(t, Tag(g), v)
  {
    TagShape(f, g);
    TagShape(g, g);
    TagPasses(Tag(f), t, Tag(g), v);
  }

  /** A tag is copied by the replacement of a different tag. */
  lemma TagPasses(a: string, t: string, p: string, v: string)
    requires IsTag(a) && IsTag(p) && a != p
    ensures Replace(a + t, p, v) == a + Replace(t, p, v)
  {
    var s := a + t;
    if |s| < |p| {
      assert Replace(t, p, v) == t;
    } else {
      assert s[..|p|] != p by {
        if |p| < |a| {
          assert s[..|p|][|p| - 1] == a[|p| - 1];
        } else if |p| > |a| {
          assert s[..|p|][|a| - 1] == a[|a| - 1];
        } else {
          assert s[..|p|] == a;
        }
      }
      var b := a[1..];
      assert p[0] !in b by {
        forall j | 0 <= j < |b| ensures b[j] != '<' {
          assert b[j] == a[j + 1];
        }
      }
      assert s[1..] == b + t;
      ReplacePassesPrefix(b, t, p, v);
      assert [s[0]] + b == a;
    }
  }

  /** The step of field `g`, the `n`-th, replaces exactly the placeholders
      of `g`: literal text and values already in place are copied, since none
      holds a `<`. */
  lemma {:induction false} StepPartial(ps: seq<Piece>, n: nat, g: Field, truth: SingleSourceOfTruth)
    requires Plain(ps, truth) && Rank(g) == n
    ensures Step(Partial(ps, n, truth), g, truth) == Partial(ps, n + 1, truth)
  {
    TagShape(g, g);
    var p := Tag(g);
    var v := truth.Value(g);
    if ps != [] {
      assert Plain(ps[1..], truth) by {
        forall i | 0 <= i < |ps[1..]| ensures match ps[1..][i] case Literal(t) => '<' !in t case Placeholder(f) => '<' !in truth.Value(f) {
          assert ps[1..][i] == ps[i + 1];
        }
      }
      StepPartial(ps[1..], n, g, truth);
      var rest := Partial(ps[1..], n, truth);
      match ps[0]
      case Literal(t) =>
        ReplacePassesPrefix(t, rest, p, v);
      case Placeholder(f) =>
        if Rank(f) < n {
          ReplacePassesPrefix(truth.Value(f), rest, p, v);
        } else if f == g {
          ReplaceHead(rest, p, v);
        } else {
          OtherTagHead(f, rest, g, v);
        }
    }
  }

  /** The six steps take the template to the filled question. */
  lemma SixStepsFill(ps: seq<Piece>, truth: SingleSourceOfTruth)
    requires Plain(ps, truth)
    ensures SixSteps(Template(ps), truth) == Filled(ps, truth)
  {
    PartialNone(ps, truth);
    var q0 := Template(ps);
    var q1 := Step(q0, JobName, truth);
    StepPartial(ps, 0, JobName, truth);
    assert q1 == Partial(ps, 1, truth);
    var q2 := Step(q1, JobDescription, truth);
    StepPartial(ps, 1, JobDescription, truth);
    assert q2 == Partial(ps, 2, truth);
    var q3 := Step(q2, CompanyName, truth);
    StepPartial(ps, 2, CompanyName, truth);
    assert q3 == Partial(ps, 3, truth);
    var q4 := Step(q3, CompanyDescription, truth);
    StepPartial(ps, 3, CompanyDescription, truth);
    assert q4 == Partial(ps, 4, truth);
    var q5 := Step(q4, Resume, truth);
    StepPartial(ps, 4, Resume, truth);
    assert q5 == Partial(ps, 5, truth);
    StepPartial(ps, 5, CompanyWebsite, truth);
    assert SixSteps(q0, truth) == Step(q5, CompanyWebsite, truth);
  }

  /** Substitution replaces every placeholder of a question, however many
      there are and whether or not a field's placeholder repeats, provided
      neither the literal text nor the values hold a `<`. */
  lemma SubstituteAll(ps: seq<Piece>, truth: SingleSourceOfTruth)
    requires Plain(ps, truth)
    ensures Substituted(Template(ps), truth) == Filled(ps, truth)
  {
    var q := Template(ps);
    if '<' in q && '>' in q {
      SixStepsFill(ps, truth);
    } else {
      if '<' in q {
        OpenedIsClosed(ps, truth);
      }
      PartialFree(ps, 6, truth);
    }
  }

  /** A question holding one placeholder, and no other `<`, gets the field's
      value in its place, provided the value holds no `<` either. */
  lemma SubstituteOne(a: string, f: Field, b: string, truth: SingleSourceOfTruth)
    requires '<' !in a && '<' !in b && '<' !in truth.Value(f)
    ensures Substituted(a + Tag(f) + b, truth) == a + truth.Value(f) + b
  {
    var ps := [Literal(a), Placeholder(f), Literal(b)];
    var p1, p2 := ps[1..], ps[2..];
    assert p1[1..] == p2 && p2[1..] == [];
    assert Template(p2) == b;
    assert Template(p1) == Tag(f) + b;
    assert Template(ps) == a + Tag(f) + b;
    assert Partial(p2, 6, truth) == b;
    assert Partial(p1, 6, truth) == truth.Value(f) + b;
    assert Filled(ps, truth) == a + truth.Value(f) + b;
    SubstituteAll(ps, truth);
  }

  /** A question holding two placeholders, of different fields or of the
      same one, gets both values in their places. */
  lemma SubstituteTwo(a: string, f: Field, b: string, g: Field, c: string, truth: SingleSourceOfTruth)
    requires '<' !in a && '<' !in b && '<' !in c && '<' !in truth.Value(f) && '<' !in truth.Value(g)
    ensures Substituted(a + Tag(f) + b + Tag(g) + c, truth) == a + truth.Value(f) + b + truth.Value(g) + c
  {
    var ps := [Literal(a), Placeholder(f), Literal(b), Placeholder(g), Literal(c)];
    var p1, p2, p3, p4 := ps[1..], ps[2..], ps[3..], ps[4..];
    assert p1[1..] == p2 && p2[1..] == p3 && p3[1..] == p4 && p4[1..] == [];
    assert Plain(ps, truth) by {
      forall i | 0 <= i < 5 ensures match ps[i] case Literal(t) => '<' !in t case Placeholder(h) => '<' !in truth.Value(h) {
        assert i == 0 || i == 1 || i == 2 || i == 3 || i == 4;
      }
    }
    SubstituteAll(ps, truth);
    assert Template(p4) == c;
    assert Template(p3) == Tag(g) + c;
    assert Template(p2) == b + (Tag(g) + c);
    assert Template(p1) == Tag(f) + (b + (Tag(g) + c));
    assert Template(ps) == a + (Tag(f) + (b + (Tag(g) + c)));
    Concat5(a, Tag(f), b, Tag(g), c);
    assert Partial(p4, 6, truth) == c;
    assert Partial(p3, 6, truth) == truth.Value(g) + c;
    assert Partial(p2, 6, truth) == b + (truth.Value(g) + c);
    assert Partial(p1, 6, truth) == truth.Value(f) + (b + (truth.Value(g) + c));
    assert Filled(ps, truth) == a + (truth.Value(f) + (b + (truth.Value(g) + c)));
    Concat5(a, truth.Value(f), b, truth.Value(g), c);
  }

  /** Concatenation regrouped from the right to the left. */
  lemma Concat5(a: string, b: string, c: string, d: string, e: string)
    ensures a + (b + (c + (d + e))) == a + b + c + d + e
  {
  }
}
