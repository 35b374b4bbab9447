/** The subject metadata table: for each subject name the colour class of
    its badge and the area it belongs to, and the lookup that falls back to
    a grey badge in the "Otras" area for a name the table does not list. */
module Subjects {
  import opened Wrappers

  /** The five areas a subject can belong to. */
  datatype Area = Ciencias | Matematicas | Humanidades | Sociales | Otras

  datatype SubjectMeta = SubjectMeta(colorClass: string, area: Area)

  /** The names `SUBJECTS_META` lists, in the order its keys are written
      (`MATERIAS`, the subject list of the assignment dialog). */
  const SubjectNames: seq<string> := [
    "Biología", "Física", "Química", "Preciencias", "Pre Ciencias", "Matemáticas", "Geometría",
    "Economía Política", "Lengua Castellana", "Comprensión Lectora", "Inglés", "Filosofía",
    "Sociales", "Historia", "Geografía", "Artística", "Informática", "Ética", "Religión",
    "Ciudadanas", "C. Ciudadanas", "Ed. Física"]

  /** `SUBJECTS_META[materia]`: the entry of a listed name, `undefined`
      for any other. */
  function Lookup(materia: string): Option<SubjectMeta>
  {
    if materia == "Biología" then Some(SubjectMeta("bg-emerald-600", Ciencias))
    else if materia == "Física" then Some(SubjectMeta("bg-indigo-500", Ciencias))
    else if materia == "Química" then Some(SubjectMeta("bg-violet-600", Ciencias))
    else if materia == "Preciencias" then Some(SubjectMeta("bg-green-700", Ciencias))
    else if materia == "Pre Ciencias" then Some(SubjectMeta("bg-green-700", Ciencias))
    else if materia == "Matemáticas" then Some(SubjectMeta("bg-blue-600", Matematicas))
    else if materia == "Geometría" then Some(SubjectMeta("bg-sky-500", Matematicas))
    else if materia == "Economía Política" then Some(SubjectMeta("bg-stone-600", Matematicas))
    else if materia == "Lengua Castellana" then Some(SubjectMeta("bg-orange-600", Humanidades))
    else if materia == "Comprensión Lectora" then Some(SubjectMeta("bg-orange-400", Humanidades))
    else if materia == "Inglés" then Some(SubjectMeta("bg-purple-600", Humanidades))
    else if materia == "Filosofía" then Some(SubjectMeta("bg-slate-800", Humanidades))
    else if materia == "Sociales" then Some(SubjectMeta("bg-amber-700", Sociales))
    else if materia == "Historia" then Some(SubjectMeta("bg-amber-600", Sociales))
    else if materia == "Geografía" then Some(SubjectMeta("bg-amber-500", Sociales))
    else if materia == "Artística" then Some(SubjectMeta("bg-pink-500", Otras))
    else if materia == "Informática" then Some(SubjectMeta("bg-slate-600", Otras))
    else if materia == "Ética" then Some(SubjectMeta("bg-lime-600", Otras))
    else if materia == "Religión" then Some(SubjectMeta("bg-yellow-600", Otras))
    else if materia == "Ciudadanas" then Some(SubjectMeta("bg-teal-600", Otras))
    else if materia == "C. Ciudadanas" then Some(SubjectMeta("bg-teal-600", Otras))
    else if materia == "Ed. Física" then Some(SubjectMeta("bg-red-600", Otras))
    else None
  }

  /** The badge of a subject that is not in the table. */
  const DefaultMeta: SubjectMeta := SubjectMeta("bg-slate-400", Otras)

  /** `subjectBadge`: the table's entry for a listed name, the grey "Otras"
      badge for any other. */
  function SubjectBadge(materia: string): (m: SubjectMeta)
    ensures Lookup(materia).Some? ==> m == Lookup(materia).value
    ensures Lookup(materia).None? ==> m == DefaultMeta
  {
    match Lookup(materia)
    case Some(meta) => meta
    case None => DefaultMeta
  }

  /** The table has an entry for exactly the listed names. */
  lemma {:induction false} ListedExactly(materia: string)
    ensures Lookup(materia).Some? <==> materia in SubjectNames
  {
  }

  /** The two spellings of pre-sciences, and of citizenship, share their
      badge. */
  lemma {:induction false} AliasesAgree()
    ensures SubjectBadge("Pre Ciencias") == SubjectBadge("Preciencias")
    ensures SubjectBadge("C. Ciudadanas") == SubjectBadge("Ciudadanas")
  {
  }

  /** The fallback is the grey badge in the "Otras" area, and no listed
      subject has the grey badge: the colour alone tells an unknown name. */
  lemma {:induction false} UnknownIsGrey(materia: string)
    ensures SubjectBadge(materia).colorClass == "bg-slate-400" <==> materia !in SubjectNames
    ensures materia !in SubjectNames ==> SubjectBadge(materia) == SubjectMeta("bg-slate-400", Otras)
  {
  }
}
