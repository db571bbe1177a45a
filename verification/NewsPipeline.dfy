/**
  The four parallel stages of tgnews from files to news. Parsing HTML, language identification, tagging,
  the two regressions and what a move leaves behind are parameters: pure functions of one document.
 */
module NewsPipeline {
  import opened Sequences
  import opened ParallelLoops
  import opened ParallelMap

  datatype HTMLDocument = HTMLDocument(text: string, meta: map<string, string>) {
    function GetMeta(key: string): string {
      if key in meta then meta[key] else ""
    }

    function SetMeta(key: string, value: string): HTMLDocument {
      this.(meta := meta[key := value])
    }
  }

  datatype DocFeatures = DocFeatures(
    textFeats: seq<real>, title: string, name: string, lang: string, url: string, isNews: bool, score: real)

  const BLANK_FEATURES := DocFeatures([], "", "", "", "", false, 0.0)
  const BLANK_DOCUMENT := HTMLDocument("", map[])

  datatype Libraries = Libraries(
    parse: string -> HTMLDocument,
    siteToLang: map<string, string>,
    useLists: bool,
    findLanguage: string -> (string, string),
    generate: HTMLDocument -> DocFeatures,
    mentionsNews: string -> bool,
    ruModel: seq<real> -> real,
    enModel: seq<real> -> real,
    movedDocument: HTMLDocument -> HTMLDocument,
    movedFeatures: DocFeatures -> DocFeatures)

  // ---- The body of each task.

  /** `LoadDocsTask` */
  function LoadTask(lib: Libraries, files: seq<string>): Task<HTMLDocument> {
    (i: nat, document: HTMLDocument) => if i < |files| then lib.parse(files[i]) else document
  }

  /** `RecogTask` */
  function Recognize(lib: Libraries, document: HTMLDocument): HTMLDocument {
    var site := document.GetMeta("og:site_name");
    if site in lib.siteToLang && lib.useLists then
      document.SetMeta("lang", lib.siteToLang[site]).SetMeta("lang_score", "1")
    else
      var (language, probability) := lib.findLanguage(document.text);
      document.SetMeta("lang", language).SetMeta("lang_score", probability)
  }

  function RecogTask(lib: Libraries): Task<HTMLDocument> {
    (_: nat, document: HTMLDocument) => Recognize(lib, document)
  }

  predicate IsRuEn(document: HTMLDocument) {
    document.GetMeta("lang") == "ru" || document.GetMeta("lang") == "en"
  }

  /** `GenerateFeaturesTask`, on a slot that holds `features` before. */
  function Describe(lib: Libraries, document: HTMLDocument, features: DocFeatures): DocFeatures {
    var base := if IsRuEn(document) then lib.generate(document) else features;
    base.(name := document.GetMeta("path"), lang := document.GetMeta("lang"),
          url := document.GetMeta("og:url"), title := document.GetMeta("og:title"))
  }

  function FeaturesTask(lib: Libraries, documents: seq<HTMLDocument>): Task<DocFeatures> {
    (i: nat, features: DocFeatures) => if i < |documents| then Describe(lib, documents[i], features) else features
  }

  /** `DetectNewsTask` */
  function Detect(lib: Libraries, doc: DocFeatures): DocFeatures {
    if lib.mentionsNews(doc.url) then
      doc.(score := 1.0, isNews := true)
    else if doc.lang == "ru" then
      var score := lib.ruModel(doc.textFeats);
      doc.(score := score, isNews := score > 0.3)
    else if doc.lang == "en" then
      var score := lib.enModel(doc.textFeats);
      doc.(score := score, isNews := score > 0.3)
    else doc
  }

  function DetectTask(lib: Libraries): Task<DocFeatures> {
    (_: nat, doc: DocFeatures) => Detect(lib, doc)
  }

  predicate IsNews(doc: DocFeatures) {
    doc.isNews
  }

  // ---- The stages, one schedule of each.

  method LoadDocs(lib: Libraries, files: seq<string>) returns (documents: array<HTMLDocument>)
    ensures fresh(documents)
    ensures documents[..] == seq(|files|, i requires 0 <= i < |files| => lib.parse(files[i]))
  {
    documents := new HTMLDocument[|files|](_ => BLANK_DOCUMENT);
    RunThreads(LoadTask(lib, files), documents);
  }

  method RecognizeLanguage(lib: Libraries, documents: array<HTMLDocument>) returns (recognized: seq<HTMLDocument>)
    modifies documents
    ensures recognized == Keep(IsRuEn, MapAll(RecogTask(lib), old(documents[..])))
    ensures documents[..] == Husks(IsRuEn, lib.movedDocument, MapAll(RecogTask(lib), old(documents[..])))
  {
    RunThreads(RecogTask(lib), documents);
    recognized := MoveOut(IsRuEn, lib.movedDocument, documents);
  }

  method GenerateFeatures(lib: Libraries, documents: seq<HTMLDocument>) returns (features: array<DocFeatures>)
    ensures fresh(features)
    ensures features[..]
         == seq(|documents|, i requires 0 <= i < |documents| => Describe(lib, documents[i], BLANK_FEATURES))
  {
    features := new DocFeatures[|documents|](_ => BLANK_FEATURES);
    RunThreads(FeaturesTask(lib, documents), features);
  }

  method DetectNews(lib: Libraries, documents: array<DocFeatures>) returns (news: seq<DocFeatures>)
    modifies documents
    ensures news == Keep(IsNews, MapAll(DetectTask(lib), old(documents[..])))
    ensures documents[..] == Husks(IsNews, lib.movedFeatures, MapAll(DetectTask(lib), old(documents[..])))
  {
    RunThreads(DetectTask(lib), documents);
    news := MoveOut(IsNews, lib.movedFeatures, documents);
  }

  // ---- The whole pipeline, whatever the threads do.

  /** What becomes of one file: at most one news item. */
  function NewsOfFile(lib: Libraries, file: string): seq<DocFeatures> {
    var document := Recognize(lib, lib.parse(file));
    if !IsRuEn(document) then [] else
    var doc := Detect(lib, Describe(lib, document, BLANK_FEATURES));
    if IsNews(doc) then [doc] else []
  }

  function SiteOf(document: HTMLDocument): string {
    if "og:site_name" in document.meta then document.meta["og:site_name"] else ""
  }

  predicate BySite(lib: Libraries, document: HTMLDocument) {
    lib.useLists && SiteOf(document) in lib.siteToLang
  }

  /** The language of a document: that of its site when lists are used and know it, else the one found. */
  function LanguageOf(lib: Libraries, document: HTMLDocument): string {
    if BySite(lib, document) then lib.siteToLang[SiteOf(document)] else lib.findLanguage(document.text).0
  }

  /** The model that judges documents of a language. */
  function ModelOf(lib: Libraries, language: string): seq<real> -> real {
    if language == "ru" then lib.ruModel else lib.enModel
  }

  /**
    A file is news exactly when its language is Russian or English and either its address mentions news or
    the model of that language gives its features more than 0.3; the item carries that score, and its
    language, address, title and path.
   */
  lemma NewsExactly(lib: Libraries, file: string)
    ensures var document := Recognize(lib, lib.parse(file));
            var language := LanguageOf(lib, lib.parse(file));
            var url := if "og:url" in document.meta then document.meta["og:url"] else "";
            var score := if lib.mentionsNews(url) then 1.0
                         else ModelOf(lib, language)(lib.generate(document).textFeats);
            var news := NewsOfFile(lib, file);
            && |news| == (if (language == "ru" || language == "en") && (lib.mentionsNews(url) || score > 0.3)
                          then 1 else 0)
            && (news != [] ==>
                  && news[0].score == score && news[0].isNews
                  && news[0].lang == language && news[0].url == url
                  && news[0].textFeats == lib.generate(document).textFeats)
  {
    RecognizeMeans(lib, lib.parse(file));
  }

  /** Recognition labels the document with its language and leaves the text and the other entries alone. */
  lemma RecognizeMeans(lib: Libraries, document: HTMLDocument)
    ensures var after := Recognize(lib, document);
            && after.text == document.text
            && after.meta.Keys == document.meta.Keys + {"lang", "lang_score"}
            && after.meta["lang"] == LanguageOf(lib, document)
            && after.meta["lang_score"] == (if BySite(lib, document) then "1" else lib.findLanguage(document.text).1)
            && forall key | key in document.meta && key != "lang" && key != "lang_score" ::
                 after.meta[key] == document.meta[key]
  {
    assert "lang" != "lang_score";
  }

  lemma KeepsEntry(lib: Libraries, document: HTMLDocument, key: string)
    requires key != "lang" && key != "lang_score"
    ensures Recognize(lib, document).GetMeta(key) == document.GetMeta(key)
  {
  }

  /** The item has the title and the path of the parsed document. */
  lemma NewsCarriesMeta(lib: Libraries, file: string)
    requires NewsOfFile(lib, file) != []
    ensures var meta, news := lib.parse(file).meta, NewsOfFile(lib, file)[0];
            && news.title == (if "og:title" in meta then meta["og:title"] else "")
            && news.name == (if "path" in meta then meta["path"] else "")
            && news.url == (if "og:url" in meta then meta["og:url"] else "")
  {
    hide Recognize;
    var parsed := lib.parse(file);
    KeepsEntry(lib, parsed, "og:title");
    KeepsEntry(lib, parsed, "path");
    KeepsEntry(lib, parsed, "og:url");
  }

  function NewsOfFiles(lib: Libraries, files: seq<string>): seq<DocFeatures> {
    if files == [] then [] else NewsOfFile(lib, files[0]) + NewsOfFiles(lib, files[1..])
  }

  function Blank<T>(n: nat, blank: T): seq<T> {
    seq(n, _ => blank)
  }

  /** The four stages with any schedule in each, and the two filters between them. */
  ghost predicate Pipeline(lib: Libraries, files: seq<string>, news: seq<DocFeatures>) {
    exists loaded, recognized, described, detected ::
      Stages(lib, files, loaded, recognized, described, detected) && news == Keep(IsNews, detected)
  }

  ghost predicate Stages(lib: Libraries, files: seq<string>, loaded: seq<HTMLDocument>,
                         recognized: seq<HTMLDocument>, described: seq<DocFeatures>, detected: seq<DocFeatures>)
  {
    var kept := Keep(IsRuEn, recognized);
    && Ran(LoadTask(lib, files), Blank(|files|, BLANK_DOCUMENT), loaded)
    && Ran(RecogTask(lib), loaded, recognized)
    && Ran(FeaturesTask(lib, kept), Blank(|kept|, BLANK_FEATURES), described)
    && Ran(DetectTask(lib), described, detected)
  }

  function Loaded(lib: Libraries, files: seq<string>): seq<HTMLDocument> {
    seq(|files|, i requires 0 <= i < |files| => Recognize(lib, lib.parse(files[i])))
  }

  function Detected(lib: Libraries, documents: seq<HTMLDocument>): seq<DocFeatures> {
    seq(|documents|, i requires 0 <= i < |documents| => Detect(lib, Describe(lib, documents[i], BLANK_FEATURES)))
  }

  lemma {:induction false} StagesFuse(lib: Libraries, files: seq<string>)
    ensures Keep(IsNews, Detected(lib, Keep(IsRuEn, Loaded(lib, files)))) == NewsOfFiles(lib, files)
    decreases files
  {
    hide Recognize, Describe, Detect, IsRuEn, IsNews;
    if files != [] {
      var first, rest := Recognize(lib, lib.parse(files[0])), Loaded(lib, files[1..]);
      assert Loaded(lib, files)[0] == first && Loaded(lib, files)[1..] == rest;
      StagesFuse(lib, files[1..]);
      var kept := Keep(IsRuEn, rest);
      if IsRuEn(first) {
        var all := [first] + kept;
        assert Detected(lib, all)[1..] == Detected(lib, kept);
        assert Detected(lib, all)[0] == Detect(lib, Describe(lib, first, BLANK_FEATURES));
      } else {
        LeftUnit(kept);
      }
    }
  }

  /** The news do not depend on any schedule: they are those of the files taken one at a time, in order. */
  lemma NewsAreScheduleIndependent(lib: Libraries, files: seq<string>, news: seq<DocFeatures>)
    ensures Pipeline(lib, files, news) <==> news == NewsOfFiles(lib, files)
  {
    var load, blank := LoadTask(lib, files), Blank(|files|, BLANK_DOCUMENT);
    var loaded := MapAll(load, blank);
    var recognized := MapAll(RecogTask(lib), loaded);
    var kept := Keep(IsRuEn, recognized);
    var described := MapAll(FeaturesTask(lib, kept), Blank(|kept|, BLANK_FEATURES));
    var detected := MapAll(DetectTask(lib), described);
    assert recognized == Loaded(lib, files);
    assert detected == Detected(lib, kept);
    StagesFuse(lib, files);
    RanIsMapAll(load, blank, loaded);
    RanIsMapAll(RecogTask(lib), loaded, recognized);
    RanIsMapAll(FeaturesTask(lib, kept), Blank(|kept|, BLANK_FEATURES), described);
    RanIsMapAll(DetectTask(lib), described, detected);
    hide Ran, MapAll;
    assert Stages(lib, files, loaded, recognized, described, detected);
    if Pipeline(lib, files, news) {
      var l, r, d, e :| Stages(lib, files, l, r, d, e) && news == Keep(IsNews, e);
      RanIsMapAll(load, blank, l);
      RanIsMapAll(RecogTask(lib), l, r);
      RanIsMapAll(FeaturesTask(lib, Keep(IsRuEn, r)), Blank(|Keep(IsRuEn, r)|, BLANK_FEATURES), d);
      RanIsMapAll(DetectTask(lib), d, e);
    }
  }
}
