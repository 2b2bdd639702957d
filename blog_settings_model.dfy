/** The blog settings document, the shape check request bodies go through,
    the startup default, and the singleton collection holding it. */
module BlogSettingsModel {
  import opened Wrappers
  import opened Js

  /** The stored settings document (timestamps and `_id` are not modelled). */
  datatype Settings = Settings(theme: string)

  /** A request body as the handler sees it. Fields other than `theme` are
      dropped by the strict schema when the body is applied, so they are not
      represented. */
  datatype SettingsBody = SettingsBody(theme: JsValue<string>)

  /** The values the schema's enum allows for `theme`. */
  const SchemaThemes: seq<string> := ["minty", "flatly", "cosmo"]

  /** The value the schema fills in when `theme` is not given. */
  const SchemaDefaultTheme: string := "minty"

  /** `defaultBlogSettings`, created at startup when no document exists. */
  const DefaultBlogSettings: Settings := Settings("minty")

  /** `isIBlogSettings`: the body counts as settings when its theme is
      truthy. The enum is not consulted here. */
  predicate IsIBlogSettings(obj: SettingsBody): (r: bool)
    ensures r <==> obj.theme.Defined? && |obj.theme.value| > 0
  {
    Truthy(obj.theme)
  }

  /** The body a client would send to set the given document. */
  function AsBody(s: Settings): (b: SettingsBody)
    ensures b.theme == Defined(s.theme)
  {
    SettingsBody(Defined(s.theme))
  }

  lemma DefaultSettingsAreValid()
    ensures IsIBlogSettings(AsBody(DefaultBlogSettings))
    ensures DefaultBlogSettings.theme in SchemaThemes
    ensures DefaultBlogSettings.theme == SchemaDefaultTheme
  {
  }

  /** The check accepts a theme exactly when it is a non-empty string, so a
      theme outside the enum such as "darkly" gets through it. */
  lemma IsIBlogSettingsIgnoresEnum(theme: string)
    ensures IsIBlogSettings(SettingsBody(Defined(theme))) <==> theme != ""
    ensures IsIBlogSettings(SettingsBody(Defined("darkly"))) && "darkly" !in SchemaThemes
    ensures !IsIBlogSettings(SettingsBody(Undefined)) && !IsIBlogSettings(SettingsBody(Null))
  {
  }

  /** `blogSettings.set(body)`: the body's fields overwrite the document's. */
  function Apply(doc: Settings, body: SettingsBody): (r: Settings)
    requires IsIBlogSettings(body)
    ensures r.theme == body.theme.value
  {
    doc.(theme := body.theme.value)
  }

  /** Schema validation run by `save()`. */
  predicate SchemaAccepts(s: Settings): (r: bool)
    ensures r <==> s.theme == "minty" || s.theme == "flatly" || s.theme == "cosmo"
  {
    s.theme in SchemaThemes
  }

  /** The blog settings collection: at most one document. */
  class BlogSettingsCollection {
    var doc: Option<Settings>

    /** The collection as the process finds it at startup; the server
        bootstrap inserts `DefaultBlogSettings` when it is empty. */
    constructor (initial: Option<Settings>)
      ensures doc == initial
    {
      doc := initial;
    }

    /** `blogSettings.save()` on the existing document: schema validation
        runs first, and a rejected document leaves the stored one as it was. */
    method Save(s: Settings) returns (saved: bool)
      requires doc.Some?
      modifies this
      ensures saved <==> SchemaAccepts(s)
      ensures doc == if saved then Some(s) else old(doc)
    {
      saved := s.theme in SchemaThemes;
      if saved {
        doc := Some(s);
      }
    }
  }
}
