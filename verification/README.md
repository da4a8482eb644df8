# Course wizard of CursosOnline, in Dafny

CursosOnline is a browser front-end for small online courses: a user signs in,
picks a course, walks through its six steps (material, video, attendance,
survey, exam, effectiveness check), submits a grade from 0 to 20 and, with 14
or more, may generate a certificate. Everything it persists goes to a hosted
backend; the logic of its own lives in `main.js`. This project models that
logic:

- **JsString** (`jsstring.dfy`): the JavaScript string operations the page
  uses — `includes`, `endsWith`, `indexOf`, `replace` with a string pattern
  (leftmost occurrence only) and `trim` with the ECMAScript whitespace set —
  each with an independent characterisation (leftmost occurrence, removed
  prefix/suffix all whitespace).
- **Wizard** (`wizard.dfy`): the step list `pasosCurso`, the course row, the
  module-level state (selected course, cursor `pasoActual`, whether the
  certificate section is shown), the transitions `mostrarCurso` (state part),
  `pasoAnterior`, `siguientePaso`, `volverACursos`, and the title lookup
  `obtenerTituloPaso`.
- **StepView** (`stepview.dfy`): the decisions `mostrarPasoActual` makes,
  returned as a view model rather than HTML — whether the step has content,
  which renderer it gets (document frame, YouTube embed, `<video>` element,
  external link, form frame, or the "not available" placeholder), the YouTube
  link rewrite, the state and label of the navigation buttons, the step
  counter and the visibility of the grade inputs.
- **Grading** (`grading.dfy`): `enviarNota` — its three checks in order, the
  insert it attempts, the pass rule (14 or more, the same predicate the admin
  report uses at admin.js:94) and the certificate section it reveals — and the
  guard of `generarCertificado`.
- **Session** (`session.dfy`): arbitrary sequences of user actions and the
  invariants the wizard keeps along them.

The grade arrives already parsed: `None` stands for `NaN`. The signed-in user
and the error (if any) the backend reports for the grade insert are inputs.

Two facts about `main.js` shape the model:

- `main.js` rewrites only YouTube links; there is no OneDrive or Google Drive
  link rewriting, so none is modelled.
- At the last step "next" is disabled and labelled "Finalizado"; the grade
  inputs are shown by that step's rendering, not by pressing "next".

## Model

| member | source | states |
|---|---|---|
| JsString.IndexOfFrom | main.js:123 | the search returns the leftmost occurrence at or after the start position, and none exactly when there is no occurrence from there on |
| JsString.IndexOf | main.js:123 | a result exists exactly when the pattern occurs (`includes`), and it is the leftmost occurrence |
| JsString.ReplaceFirst | main.js:124 | string-pattern `replace` splices the replacement in at the leftmost occurrence only, and returns the input unchanged when the pattern does not occur |
| JsString.TrimStart | main.js:106 | the result is a suffix of the input, everything removed is whitespace, and it does not start with whitespace |
| JsString.TrimEnd | main.js:106 | the result is a prefix of the input, everything removed is whitespace, and it does not end with whitespace |
| JsString.Trim | main.js:106 | `trim()` returns the infix of the input left after removing a whitespace prefix and suffix; it leaves nothing exactly when every character is whitespace, and what it leaves neither starts nor ends with whitespace |
| Wizard.Position | main.js:15 | every step kind has a fixed place in the six-element step list |
| Wizard.StepAt | main.js:104 | indexing the step list yields a step exactly for cursors 0 to 5, and that step sits at the cursor's position |
| Wizard.StepsDistinct | main.js:15 | no two step kinds share a position or a key |
| Wizard.StepOfKey | main.js:209-216 | a key is mapped back to the step kind whose key it is, and to none exactly when no step has that key |
| Wizard.UrlForOwnColumn | main.js:105 | a step's url is its own `url_<key>` column and changes with no other column |
| Wizard.SelectCourse | main.js:76-83 | choosing a course selects it, puts the cursor on the first step (material) and hides the certificate section |
| Wizard.SelectCourseForgetsPrior | main.js:77-78 | the state after choosing a course does not depend on the state before |
| Wizard.Previous | main.js:190-195 | "previous" decrements the cursor by exactly one when it is above 0 and is a no-op otherwise; course and certificate section unchanged |
| Wizard.Next | main.js:197-202 | "next" increments the cursor by exactly one below the last index and is a no-op otherwise; course and certificate section unchanged |
| Wizard.PreviousNoOpIffFirst | main.js:190-195 | on a valid cursor, "previous" changes nothing exactly at the first step |
| Wizard.NextNoOpIffLast | main.js:197-202 | on a valid cursor, "next" changes nothing exactly at the last step |
| Wizard.PreviousUndoesNext | main.js:190-202 | below the last step, "previous" after "next" restores the state |
| Wizard.NextUndoesPrevious | main.js:190-202 | above the first step, "next" after "previous" restores the state |
| Wizard.BackToCourses | main.js:221-225 | returning to the course list puts the cursor on the first step and keeps the selected course |
| Wizard.TitleOf | main.js:208-218 | each step key yields its step's fixed title; any other key yields "Paso", except a name every JavaScript object inherits, whose truthy member is returned instead |
| StepView.HasContent | main.js:104-106 | a step has content exactly when its url is present and holds a non-whitespace character |
| StepView.EmbedUrl | main.js:124 | a url with neither "watch?v=" nor "youtu.be/" is embedded unchanged |
| StepView.VideoContent | main.js:122-137 | a url naming "youtube" or "youtu.be" gets the embed of its rewritten link even if it ends in a media extension; otherwise ".mp4"/".webm" gets the video element; otherwise a link; element and link keep the url as given |
| StepView.StepContent | main.js:111-155 | the placeholder with the step title exactly when there is no content; otherwise the material frame with `#toolbar=0` exactly for "material", a video renderer exactly for "video", the form frame for every other key, all fed the untrimmed url |
| StepView.NavigationAt | main.js:157-174 | "previous" disabled exactly at cursor 0; "next" disabled exactly at the last index, labelled "Finalizado" there and "Siguiente →" elsewhere; counter at cursor + 1 of 6 |
| StepView.Render | main.js:103-105 | the step renders exactly when a course is selected (with none, the url lookup throws) |
| StepView.RenderedContent | main.js:103-155 | a step without content shows the placeholder with that step's title; with content, material gets the document frame with `#toolbar=0`, video the video renderer, every other step the form frame, all fed the untrimmed url |
| StepView.NavigationMatchesMoves | main.js:157-186 | "previous" is disabled exactly when it would be a no-op, "next" is disabled and labelled "Finalizado" exactly when it would be a no-op, the grade inputs show exactly at the last step, and the counter reads cursor + 1 of 6 under the current step's title |
| StepView.EmbedUrlWatch | main.js:124 | the first "watch?v=" becomes "embed/" and nothing else changes when the result holds no "youtu.be/" |
| StepView.EmbedUrlShortLink | main.js:124 | without "watch?v=", the first "youtu.be/" becomes "youtube.com/embed/" and nothing else changes |
| StepView.EmbedUrlWatchExample | main.js:124 | `https://youtube.com/watch?v=XYZ` embeds as `https://youtube.com/embed/XYZ` |
| StepView.EmbedUrlShortLinkExample | main.js:124 | `https://youtu.be/XYZ` embeds as `https://youtube.com/embed/XYZ` |
| Grading.Validate | main.js:235-237 | refusals come in order — no user, then no course, then a grade that is NaN or outside [0, 20] — and a grade record is produced exactly when all three checks pass, carrying the user's email, the grade and the course id |
| Grading.Submit | main.js:230-253 | a refused submission writes nothing and reports the first failed check; an accepted one writes exactly the record of user email, grade and course id, with the grade in [0, 20]; an insert error is reported exactly for an accepted grade whose insert failed, and "insufficient grade" exactly for a stored grade below 14; wizard course and cursor are untouched; the certificate section becomes visible exactly on approval |
| Grading.ApprovedIff | main.js:235-252 | approval happens exactly for a signed-in user, a selected course, a stored grade, and a grade from 14 to 20 |
| Grading.GradeBoundaries | main.js:237-252 | -1, 21 and NaN are refused before any write; 0, 14 and 20 are written; 14 and 20 pass, 0 and 13.99 do not |
| Grading.CertificateGradeUnchecked | main.js:261-265 | the certificate guard lets a NaN or a failing grade through to the generator |
| Grading.ApprovedThenCertificate | main.js:247-265 | after an approved submission the certificate section is shown, and a certificate requested with that grade carries a passing grade within [0, 20] |
| Session.RunKeepsValid | main.js:190-225 | from a cursor on the step list, every sequence of actions keeps it on the step list |
| Session.RunFromInit | main.js:13-15 | from page load, any sequence of actions leaves `pasosCurso[pasoActual]` defined, and with a course selected the counter shows cursor + 1, at most 6 |
| Session.MovesKeepCourse | main.js:190-202 | the step buttons never change the selected course or the certificate section |
| Session.ForwardClamps | main.js:197-202 | n presses of "next" move the cursor to min(cursor + n, 5) |
| Session.BackClamps | main.js:190-195 | n presses of "previous" move the cursor to max(cursor - n, 0) |
| Session.ChooseThenMove | main.js:76-202 | after choosing a course, any step-button sequence keeps that course selected, the certificate hidden, the cursor on a step and the page renderable |

## Left out

- Sign-in, the course list fetch, the profile/role lookup and the admin panel toggle (main.js:18-73): network calls to the backend.
- The attendance insert in `mostrarCurso` (main.js:85-97): a fire-and-forget write whose outcome changes no wizard state.
- The grade insert itself: its outcome is an input of `Grading.Submit`.
- HTML templating, styles and `display` toggles other than the visibility decisions in `StepView`.
- `parseFloat`: the grade arrives parsed, `None` standing for `NaN`. Infinite values are not modelled; the range check refuses them.
- Course columns holding non-text values (on which `trim` would throw): columns are text or absent.
- The race between in-flight backend calls and later clicks: concurrency.
- JsString.IndexOf: indices count characters, not the UTF-16 code units JavaScript counts, so a position after an astral character (an emoji, say) is one lower than JavaScript's; main.js uses no index, only the strings `includes`, `endsWith`, `replace` and `trim` produce, which are the same either way.
- JsString.ReplaceFirst: does not interpret `$` substitution patterns in the replacement string; the two replacements in main.js contain none.
- admin.js: backend calls for user and course creation and the report table; its only logic of note, the pass rule at admin.js:94, is `Grading.Passes`.
- certificado.js: PDF drawing through a foreign library, a storage upload, an email call and an insert, all I/O. `generarCertificado` is modelled only up to the request it hands over.
- The certificate section is taken to be hidden at page load; the page markup that decides it is not part of this model.
