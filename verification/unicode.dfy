/**
 * Texts as the search sees them, and the platform services it relies on
 * without implementing them.
 */
module Unicode {

  /** One UTF-16 code unit. Texts are indexed per code unit, so the two
      halves of a surrogate pair are two units, and a lone half is an
      ordinary unit like any other. */
  type CodeUnit = bv16

  type Text = seq<CodeUnit>

  /** The platform's Unicode services, left uninterpreted: the NFKC
      "already normalised" test, NFKC normalisation itself, and
      English-locale upper-casing. Nothing below assumes anything about
      them beyond being total functions of a text. */
  datatype Platform = Platform(
    isNormalized: Text -> bool,
    normalize: Text -> Text,
    toUpperCase: Text -> Text)

  /** The string builder that receives normalised text, appended to in
      place by its owner. */
  class TextBuilder {
    var contents: Text

    constructor ()
      ensures contents == []
    {
      contents := [];
    }

    method Append(s: Text)
      modifies this
      ensures contents == old(contents) + s
    {
      contents := contents + s;
    }
  }

  /** The list that receives origin offsets, appended to one entry at a
      time. */
  class OffsetList {
    var items: seq<int>

    constructor ()
      ensures items == []
    {
      items := [];
    }

    method Add(x: int)
      modifies this
      ensures items == old(items) + [x]
    {
      items := items + [x];
    }
  }
}
