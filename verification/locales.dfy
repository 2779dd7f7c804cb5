/** The locale list fetched at startup and the choice of the default locale. */
module Locales {
  import opened JsValues

  /** One entry of the content source's locale list. */
  datatype Locale = Locale(code: string, isDefault: bool)

  predicate NoDefault(ls: seq<Locale>)
  {
    forall i :: 0 <= i < |ls| ==> !ls[i].isDefault
  }

  /** `ls[i]` is flagged as default and no later locale is. */
  predicate LastDefaultAt(ls: seq<Locale>, i: int)
  {
    && 0 <= i < |ls|
    && ls[i].isDefault
    && forall j :: i < j < |ls| ==> !ls[j].isDefault
  }

  /** The `forEach` scan: every flagged locale overwrites the value kept so
      far, starting from `acc`. */
  function ScanDefault(acc: Option<Locale>, ls: seq<Locale>): Option<Locale>
    decreases |ls|
  {
    if |ls| == 0 then acc
    else ScanDefault(if ls[0].isDefault then Some(ls[0]) else acc, ls[1..])
  }

  lemma {:induction false} ScanDefaultKeepsLast(acc: Option<Locale>, ls: seq<Locale>)
    ensures NoDefault(ls) ==> ScanDefault(acc, ls) == acc
    ensures !NoDefault(ls) ==> exists i :: LastDefaultAt(ls, i) && ScanDefault(acc, ls) == Some(ls[i])
    decreases |ls|
  {
    if |ls| > 0 {
      var acc' := if ls[0].isDefault then Some(ls[0]) else acc;
      var rest := ls[1..];
      ScanDefaultKeepsLast(acc', rest);
      if NoDefault(rest) {
        if ls[0].isDefault {
          assert LastDefaultAt(ls, 0);
        } else {
          forall i | 0 <= i < |ls| ensures !ls[i].isDefault {
            if i > 0 { assert ls[i] == rest[i - 1]; }
          }
        }
      } else {
        var i :| LastDefaultAt(rest, i) && ScanDefault(acc', rest) == Some(rest[i]);
        assert ls[i + 1] == rest[i];
        forall j | i + 1 < j < |ls| ensures !ls[j].isDefault {
          assert ls[j] == rest[j - 1];
        }
        assert LastDefaultAt(ls, i + 1);
      }
    }
  }

  /** The default locale: the scan starts from the empty placeholder `{}`,
      modelled as `None`, so it stays `None` when no locale is flagged. */
  function DefaultLocale(ls: seq<Locale>): (d: Option<Locale>)
    ensures d.None? <==> NoDefault(ls)
    ensures d.Some? ==> exists i :: LastDefaultAt(ls, i) && d.value == ls[i]
  {
    ScanDefaultKeepsLast(None, ls);
    ScanDefault(None, ls)
  }

  /** `code === defaultLocale.code`: never true when there is no default
      locale, since the placeholder's code is `undefined`. */
  predicate IsDefaultCode(code: string, dl: Option<Locale>)
  {
    dl.Some? && dl.value.code == code
  }

  /** `defaultLocale.code` as passed into page contexts. */
  function DefaultCode(dl: Option<Locale>): (c: Option<string>)
    ensures c.Some? <==> dl.Some?
    ensures forall code :: IsDefaultCode(code, dl) <==> c == Some(code)
  {
    match dl
    case Some(l) => Some(l.code)
    case None => None
  }
}
