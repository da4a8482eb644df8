/** The decisions `mostrarPasoActual` makes when it renders the current
    step, returned as a view model instead of HTML: which renderer the
    step's content gets, the state of the two navigation buttons, the step
    counter and whether the grade inputs are displayed. */
module StepView {
  import opened Optional
  import opened JsString
  import opened Wizard

  /** How the step's content area is filled. */
  datatype Content =
    | Unavailable(title: string)               // "<title> no disponible" placeholder
    | DocumentFrame(src: string, link: string) // material: iframe with `#toolbar=0` plus an open-in-new-tab link
    | YouTubeFrame(src: string)                // video: embedded player
    | VideoElement(src: string)                // video: `<video>` element
    | ExternalVideoLink(href: string)          // video: plain link
    | FormFrame(src: string, link: string)     // every other step: iframe plus an open-form link

  /** The navigation bar, drawn above and below the content. */
  datatype Navigation = Navigation(
    previousDisabled: bool,
    nextDisabled: bool,
    nextLabel: string,
    title: string,
    position: int,   // "Paso <position> de <total>"
    total: nat)

  datatype View = View(content: Content, navigation: Navigation, gradeInputsShown: bool)

  /** `url && url.trim() !== ''`: the url is present and holds some
      character that is not whitespace. */
  predicate HasContent(url: Option<string>): (b: bool)
    ensures b <==> url.Some? && !AllWhitespace(url.value)
  {
    url.Some? && url.value != "" && Trim(url.value) != ""
  }

  /** The YouTube link rewrite: the first "watch?v=" becomes "embed/",
      then the first "youtu.be/" becomes "youtube.com/embed/". A url holding
      neither is embedded as is. */
  function EmbedUrl(url: string): (r: string)
    ensures !Includes(url, "watch?v=") && !Includes(url, "youtu.be/") ==> r == url
  {
    ReplaceFirst(ReplaceFirst(url, "watch?v=", "embed/"), "youtu.be/", "youtube.com/embed/")
  }

  /** The url names a YouTube address. */
  predicate IsYouTube(url: string)
  {
    Includes(url, "youtube") || Includes(url, "youtu.be")
  }

  /** The url names a media file the `<video>` element can play. */
  predicate IsMediaFile(url: string)
  {
    EndsWith(url, ".mp4") || EndsWith(url, ".webm")
  }

  /** The video step's renderer, tried in order: a YouTube address always
      gets the embed of its rewritten link, even when it also ends in
      ".mp4"; a media file that is not a YouTube address gets the `<video>`
      element; anything else is a link. The element and the link use the
      url as given. */
  function VideoContent(url: string): (r: Content)
    ensures r.YouTubeFrame? <==> IsYouTube(url)
    ensures r.VideoElement? <==> !IsYouTube(url) && IsMediaFile(url)
    ensures r.ExternalVideoLink? <==> !IsYouTube(url) && !IsMediaFile(url)
    ensures r.YouTubeFrame? ==> r.src == EmbedUrl(url)
    ensures r.VideoElement? ==> r.src == url
    ensures r.ExternalVideoLink? ==> r.href == url
  {
    if IsYouTube(url) then YouTubeFrame(EmbedUrl(url))
    else if IsMediaFile(url) then VideoElement(url)
    else ExternalVideoLink(url)
  }

  /** The content area for a step key, its title and its course url: the
      placeholder carrying the title exactly when there is no content;
      otherwise the material frame (with `#toolbar=0`), one of the video
      renderers, or the form frame, chosen by the key and fed the
      untrimmed url. */
  function StepContent(key: string, title: string, url: Option<string>): (r: Content)
    ensures r.Unavailable? <==> !HasContent(url)
    ensures r.Unavailable? ==> r.title == title
    ensures r.DocumentFrame? <==> HasContent(url) && key == "material"
    ensures r.DocumentFrame? ==> r.src == url.value + "#toolbar=0" && r.link == url.value
    ensures (r.YouTubeFrame? || r.VideoElement? || r.ExternalVideoLink?)
              <==> HasContent(url) && key == "video"
    ensures HasContent(url) && key == "video" ==> r == VideoContent(url.value)
    ensures r.FormFrame? <==> HasContent(url) && key != "material" && key != "video"
    ensures r.FormFrame? ==> r.src == url.value && r.link == url.value
  {
    if !HasContent(url) then Unavailable(title)
    else if key == "material" then DocumentFrame(url.value + "#toolbar=0", url.value)
    else if key == "video" then VideoContent(url.value)
    else FormFrame(url.value, url.value)
  }

  /** The title `mostrarPasoActual` shows for a cursor. */
  function TitleAt(cursor: int): string
  {
    TitleOfKeyAt(cursor);
    match TitleOf(KeyAt(cursor))
    case Title(t) => t
  }

  /** The navigation bar for a cursor: "previous" disabled at the first
      step, "next" disabled and labelled "Finalizado" at the last, and the
      counter "Paso <cursor + 1> de 6". */
  function NavigationAt(cursor: int): (r: Navigation)
    ensures r.previousDisabled <==> cursor == 0
    ensures r.nextDisabled <==> cursor == LastIndex
    ensures r.nextLabel == (if cursor == LastIndex then "Finalizado" else "Siguiente →")
    ensures r.nextLabel == "Finalizado" <==> r.nextDisabled
    ensures r.position == cursor + 1 && r.total == |Steps|
  {
    var last := cursor == LastIndex;
    Navigation(cursor == 0, last, if last then "Finalizado" else "Siguiente →",
               TitleAt(cursor), cursor + 1, |Steps|)
  }

  /** `mostrarPasoActual`. With no course selected the url lookup throws a
      `TypeError` before anything is drawn; that is `None`. */
  function Render(s: WizardState): (r: Option<View>)
    ensures r.Some? <==> s.course.Some?
  {
    match s.course
    case None => None
    case Some(course) =>
      var key := KeyAt(s.cursor);
      var content := StepContent(key, TitleAt(s.cursor), UrlFor(course, key));
      Some(View(content, NavigationAt(s.cursor), s.cursor == LastIndex))
  }

  /** What the content area holds at a valid cursor of a selected course:
      the placeholder carrying the step's title when its `url_<step>` column
      is missing or blank, otherwise the renderer of the step's kind fed
      the untrimmed url. */
  lemma RenderedContent(s: WizardState, course: Course)
    requires Valid(s) && s.course == Some(course)
    ensures var step := StepAt(s.cursor).value;
            var url := UrlFor(course, Key(step));
            var content := Render(s).value.content;
            && (!HasContent(url) ==> content == Unavailable(StepTitle(step)))
            && (HasContent(url) && step == Material ==>
                  content == DocumentFrame(url.value + "#toolbar=0", url.value))
            && (HasContent(url) && step == Video ==> content == VideoContent(url.value))
            && (HasContent(url) && step !in {Material, Video} ==>
                  content == FormFrame(url.value, url.value))
  {
    var step := StepAt(s.cursor).value;
    var key := Key(step);
    var url := UrlFor(course, key);
    assert KeyAt(s.cursor) == key;
    assert TitleAt(s.cursor) == StepTitle(step);
    assert Render(s).value.content == StepContent(key, StepTitle(step), url);
    StepsDistinct(step, Material);
    StepsDistinct(step, Video);
  }

  /** The buttons and the grade inputs depend on the cursor alone and agree
      with the moves: "previous" is disabled exactly when `pasoAnterior`
      would do nothing, "next" is disabled and labelled "Finalizado" exactly
      when `siguientePaso` would do nothing, and the grade inputs are shown
      exactly at the last step. */
  lemma NavigationMatchesMoves(s: WizardState)
    requires Valid(s) && s.course.Some?
    ensures var v := Render(s).value;
            && (v.navigation.previousDisabled <==> Previous(s) == s)
            && (v.navigation.nextDisabled <==> Next(s) == s)
            && (v.navigation.nextLabel == "Finalizado" <==> Next(s) == s)
            && (v.gradeInputsShown <==> s.cursor == LastIndex)
            && v.navigation.position == s.cursor + 1 && v.navigation.total == |Steps|
            && v.navigation.title == StepTitle(StepAt(s.cursor).value)
  {
    PreviousNoOpIffFirst(s);
    NextNoOpIffLast(s);
  }

  /** A watch link has its first "watch?v=" turned into "embed/". */
  lemma EmbedUrlWatch(url: string, i: nat)
    requires FirstAt(url, "watch?v=", i)
    requires !Includes(url[..i] + "embed/" + url[i + 8..], "youtu.be/")
    ensures EmbedUrl(url) == url[..i] + "embed/" + url[i + 8..]
  {
  }

  /** A short link has its first "youtu.be/" turned into "youtube.com/embed/". */
  lemma EmbedUrlShortLink(url: string, i: nat)
    requires !Includes(url, "watch?v=") && FirstAt(url, "youtu.be/", i)
    ensures EmbedUrl(url) == url[..i] + "youtube.com/embed/" + url[i + 9..]
  {
  }

  /** A watch link on the bare host becomes its embed link. */
  lemma EmbedUrlWatchExample()
    ensures EmbedUrl("https://youtube.com/watch?v=XYZ") == "https://youtube.com/embed/XYZ"
  {
    WatchRewritten("https://youtube.com/watch?v=XYZ");
    EmbedLinkKept("https://youtube.com/embed/XYZ");
  }

  /** A short link becomes the embed link on the long host. */
  lemma EmbedUrlShortLinkExample()
    ensures EmbedUrl("https://youtu.be/XYZ") == "https://youtube.com/embed/XYZ"
  {
    ShortLinkHasNoWatch("https://youtu.be/XYZ");
    ShortLinkRewritten("https://youtu.be/XYZ");
  }

  /** First rewrite of the watch link: "watch?v=" starts at its first 'w'. */
  lemma WatchRewritten(watch: string)
    requires watch == "https://youtube.com/watch?v=XYZ"
    ensures ReplaceFirst(watch, "watch?v=", "embed/") == "https://youtube.com/embed/XYZ"
  {
    assert 'w' !in watch[0..20];
    assert watch[20..28] == "watch?v=";
    assert watch[..20] + "embed/" + watch[28..] == "https://youtube.com/embed/XYZ";
    IndexOfFromSkip(watch, "watch?v=", 0, 20);
    assert IndexOf(watch, "watch?v=") == Some(20);
  }

  /** Second rewrite of the watch link: the result of the first holds a
      single 'y', which does not start "youtu.be/", so it is kept. */
  lemma EmbedLinkKept(embedded: string)
    requires embedded == "https://youtube.com/embed/XYZ"
    ensures ReplaceFirst(embedded, "youtu.be/", "youtube.com/embed/") == embedded
  {
    assert 'y' !in embedded[0..8];
    assert 'y' !in embedded[9..29];
    assert embedded[8..17] != "youtu.be/" by {
      assert embedded[13] == 'b';
    }
    IndexOfFromSkip(embedded, "youtu.be/", 0, 8);
    IndexOfFromSkip(embedded, "youtu.be/", 9, 29);
    assert IndexOf(embedded, "youtu.be/") == None;
  }

  /** First rewrite of the short link: it holds no 'w', so it is kept. */
  lemma ShortLinkHasNoWatch(short: string)
    requires short == "https://youtu.be/XYZ"
    ensures ReplaceFirst(short, "watch?v=", "embed/") == short
  {
    assert 'w' !in short[0..20];
    IndexOfFromSkip(short, "watch?v=", 0, 20);
    assert IndexOf(short, "watch?v=") == None;
  }

  /** Second rewrite of the short link: "youtu.be/" starts at its first 'y'. */
  lemma ShortLinkRewritten(short: string)
    requires short == "https://youtu.be/XYZ"
    ensures ReplaceFirst(short, "youtu.be/", "youtube.com/embed/") == "https://youtube.com/embed/XYZ"
  {
    assert 'y' !in short[0..8];
    assert short[8..17] == "youtu.be/";
    assert short[..8] + "youtube.com/embed/" + short[17..] == "https://youtube.com/embed/XYZ";
    IndexOfFromSkip(short, "youtu.be/", 0, 8);
    assert IndexOf(short, "youtu.be/") == Some(8);
  }
}
