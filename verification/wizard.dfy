/** The course wizard of main.js: the fixed list of step kinds, the course
    record, the module-level state (selected course, step cursor, whether
    the certificate section is shown) and the transitions that move it. */
module Wizard {
  import opened Optional

  /** The six step kinds, in the order of `pasosCurso`. */
  datatype Step = Material | Video | Attendance | Survey | Exam | Effectiveness

  /** `pasosCurso`: the fixed step order. */
  const Steps: seq<Step> := [Material, Video, Attendance, Survey, Exam, Effectiveness]

  /** Index of the final step, where the grade inputs appear. */
  const LastIndex: int := |Steps| - 1

  /** The key under which a step is named in main.js. */
  function Key(step: Step): string
  {
    match step
    case Material => "material"
    case Video => "video"
    case Attendance => "asistencia"
    case Survey => "encuesta"
    case Exam => "examen"
    case Effectiveness => "eficacia"
  }

  /** Where a step kind sits in `pasosCurso`. */
  function Position(step: Step): (i: nat)
    ensures i < |Steps| && Steps[i] == step
  {
    match step
    case Material => 0
    case Video => 1
    case Attendance => 2
    case Survey => 3
    case Exam => 4
    case Effectiveness => 5
  }

  /** `pasosCurso[cursor]`; `None` stands for the `undefined` an index
      outside the list yields. */
  function StepAt(cursor: int): (r: Option<Step>)
    ensures r.Some? <==> 0 <= cursor <= LastIndex
    ensures r.Some? ==> Position(r.value) == cursor
  {
    if 0 <= cursor < |Steps| then Some(Steps[cursor]) else None
  }

  /** The key `mostrarPasoActual` interpolates into `url_${paso}`:
      an `undefined` step prints as "undefined". */
  function KeyAt(cursor: int): string
  {
    match StepAt(cursor)
    case Some(step) => Key(step)
    case None => "undefined"
  }

  /** No two steps share a position or a key, so the list has no repeats. */
  lemma StepsDistinct(a: Step, b: Step)
    ensures Position(a) == Position(b) <==> a == b
    ensures Key(a) == Key(b) <==> a == b
  {
  }

  /** A course row: identifier, display name (`nombre`) and its columns
      holding text, absent (`null` or missing) columns left out. The url of
      step `k` is the column named `url_k`. */
  datatype Course = Course(id: int, name: string, columns: map<string, string>)

  /** `curso[`url_${key}`]`. */
  function UrlFor(course: Course, key: string): (r: Option<string>)
    ensures r.Some? <==> "url_" + key in course.columns
    ensures r.Some? ==> r.value == course.columns["url_" + key]
  {
    var column := "url_" + key;
    if column in course.columns then Some(course.columns[column]) else None
  }

  /** A step's url depends on its own `url_<key>` column and on no other. */
  lemma UrlForOwnColumn(c: Course, key: string, column: string, v: string)
    ensures UrlFor(c.(columns := c.columns["url_" + key := v]), key) == Some(v)
    ensures column != "url_" + key ==> UrlFor(c.(columns := c.columns[column := v]), key) == UrlFor(c, key)
  {
  }

  /** The module-level variables `cursoSeleccionado` and `pasoActual`,
      together with whether `certificado-section` is displayed. */
  datatype WizardState = WizardState(course: Option<Course>, cursor: int, certificateShown: bool)

  /** The state at page load: no course and cursor 0. The certificate
      section is taken to start hidden. */
  const Init: WizardState := WizardState(None, 0, false)

  /** The cursor names a step of `pasosCurso`. */
  predicate Valid(s: WizardState)
  {
    0 <= s.cursor <= LastIndex
  }

  /** `mostrarCurso(curso)`, state part: the course becomes the selected
      one, the cursor returns to the first step and the certificate section
      is hidden. */
  function SelectCourse(s: WizardState, c: Course): (r: WizardState)
    ensures Valid(r) && StepAt(r.cursor) == Some(Material)
    ensures r.course == Some(c) && !r.certificateShown
  {
    WizardState(Some(c), 0, false)
  }

  /** Selecting a course forgets everything about the state it started from. */
  lemma SelectCourseForgetsPrior(s1: WizardState, s2: WizardState, c: Course)
    ensures SelectCourse(s1, c) == SelectCourse(s2, c)
  {
  }

  /** `pasoAnterior`: step back unless already at the first step. */
  function Previous(s: WizardState): (r: WizardState)
    ensures Valid(s) ==> Valid(r)
    ensures r.course == s.course && r.certificateShown == s.certificateShown
    ensures s.cursor > 0 ==> r.cursor == s.cursor - 1
    ensures s.cursor <= 0 ==> r == s
  {
    if s.cursor > 0 then s.(cursor := s.cursor - 1) else s
  }

  /** `siguientePaso`: step forward unless already at the last step. */
  function Next(s: WizardState): (r: WizardState)
    ensures Valid(s) ==> Valid(r)
    ensures r.course == s.course && r.certificateShown == s.certificateShown
    ensures s.cursor < LastIndex ==> r.cursor == s.cursor + 1
    ensures s.cursor >= LastIndex ==> r == s
  {
    if s.cursor < LastIndex then s.(cursor := s.cursor + 1) else s
  }

  /** On a valid state, `pasoAnterior` is a no-op exactly at the first step. */
  lemma PreviousNoOpIffFirst(s: WizardState)
    requires Valid(s)
    ensures Previous(s) == s <==> s.cursor == 0
  {
  }

  /** On a valid state, `siguientePaso` is a no-op exactly at the last step. */
  lemma NextNoOpIffLast(s: WizardState)
    requires Valid(s)
    ensures Next(s) == s <==> s.cursor == LastIndex
  {
  }

  /** Away from the boundaries the two moves undo each other. */
  lemma PreviousUndoesNext(s: WizardState)
    requires Valid(s) && s.cursor < LastIndex
    ensures Previous(Next(s)) == s
  {
  }

  lemma NextUndoesPrevious(s: WizardState)
    requires Valid(s) && s.cursor > 0
    ensures Next(Previous(s)) == s
  {
  }

  /** `volverACursos`: the cursor returns to the first step; the selected
      course stays selected and the certificate section is not touched. */
  function BackToCourses(s: WizardState): (r: WizardState)
    ensures Valid(r) && StepAt(r.cursor) == Some(Material)
    ensures r.course == s.course && r.certificateShown == s.certificateShown
  {
    s.(cursor := 0)
  }

  /** What `obtenerTituloPaso` returns: a title, or, for a key naming a
      member every JavaScript object inherits (`toString`, `constructor`,
      ...), that inherited member, which is truthy and so escapes the
      `|| 'Paso'` fallback. */
  datatype TitleLookup = Title(text: string) | InheritedMember(name: string)

  /** The property names of `Object.prototype`. */
  predicate IsInheritedName(key: string)
  {
    key in {"constructor", "__defineGetter__", "__defineSetter__", "hasOwnProperty",
            "__lookupGetter__", "__lookupSetter__", "isPrototypeOf",
            "propertyIsEnumerable", "toString", "valueOf", "__proto__",
            "toLocaleString"}
  }

  /** The fixed display title of each step kind. */
  function StepTitle(step: Step): string
  {
    match step
    case Material => "Material del Curso"
    case Video => "Video del Curso"
    case Attendance => "Registro de Asistencia"
    case Survey => "Encuesta de Satisfacción"
    case Exam => "Examen del Curso"
    case Effectiveness => "Examen de Eficacia"
  }

  /** The step kind a key names, if any: the inverse of `Key`. */
  function StepOfKey(key: string): (r: Option<Step>)
    ensures r.Some? ==> Key(r.value) == key
    ensures r.None? ==> forall step: Step :: Key(step) != key
  {
    if key == Key(Material) then Some(Material)
    else if key == Key(Video) then Some(Video)
    else if key == Key(Attendance) then Some(Attendance)
    else if key == Key(Survey) then Some(Survey)
    else if key == Key(Exam) then Some(Exam)
    else if key == Key(Effectiveness) then Some(Effectiveness)
    else None
  }

  /** `obtenerTituloPaso(paso)`: `titulos[paso] || 'Paso'`. Every step key
      finds its own step's title; any other key falls back to "Paso",
      unless it is the name of an inherited member, which is returned. */
  function TitleOf(key: string): (r: TitleLookup)
    ensures forall step: Step :: Key(step) == key ==> r == Title(StepTitle(step))
    ensures r.InheritedMember? <==> (forall step: Step :: Key(step) != key) && IsInheritedName(key)
    ensures r.InheritedMember? ==> r.name == key
    ensures r == Title("Paso") <==> (forall step: Step :: Key(step) != key) && !IsInheritedName(key)
  {
    match StepOfKey(key)
    case Some(step) => Title(StepTitle(step))
    case None => if IsInheritedName(key) then InheritedMember(key) else Title("Paso")
  }

  /** The key of any cursor, in range or not, finds a title text. */
  lemma TitleOfKeyAt(cursor: int)
    ensures TitleOf(KeyAt(cursor)).Title?
    ensures StepAt(cursor).Some? ==> TitleOf(KeyAt(cursor)) == Title(StepTitle(StepAt(cursor).value))
    ensures StepAt(cursor).None? ==> TitleOf(KeyAt(cursor)) == Title("Paso")
  {
  }
}
