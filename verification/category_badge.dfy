/**
 * The category badge (src/components/CategoryBadge.tsx): an action category
 * is shown with a label and a colour pair taken from two constant objects,
 * with `?? labelMap.other` / `?? styleMap.other` as the fallback.
 *
 * Reading a key from a JavaScript object literal also finds the properties
 * every object inherits (`toString`, `constructor`, ...). Such a key does
 * not yield `undefined`, so `??` does not fall back. `LabelAsWritten` and
 * `StyleAsWritten` model the lookup as written; `Label` and `Style` model the
 * evidently intended own-key lookup that the rest of the model uses.
 */
module CategoryBadge {
  import opened Optional

  datatype Colors = Colors(background: string, color: string)

  const Categories: set<string> := {"hobby", "recovery", "growth", "lifework", "other"}

  const LabelMap: map<string, string> := map[
    "hobby" := "趣味",
    "recovery" := "回復",
    "growth" := "成長",
    "lifework" := "生活",
    "other" := "その他"
  ]

  const StyleMap: map<string, Colors> := map[
    "hobby" := Colors("#FFE4E6", "#9F1239"),
    "recovery" := Colors("#DBEAFE", "#1D4ED8"),
    "growth" := Colors("#DCFCE7", "#166534"),
    "lifework" := Colors("#FEF3C7", "#92400E"),
    "other" := Colors("#E5E7EB", "#374151")
  ]

  /** The property names every plain object inherits from `Object.prototype`. */
  const InheritedKeys: set<string> := {
    "constructor", "hasOwnProperty", "isPrototypeOf", "propertyIsEnumerable",
    "toLocaleString", "toString", "valueOf", "__proto__",
    "__defineGetter__", "__defineSetter__", "__lookupGetter__", "__lookupSetter__"
  }

  /** The outcome of `obj[key]` on an object literal. */
  datatype Lookup<T> = Own(value: T) | Inherited(key: string) | Absent

  function ObjectGet<T>(obj: map<string, T>, key: string): (r: Lookup<T>)
    ensures r.Own? <==> key in obj
    ensures r.Absent? <==> key !in obj && key !in InheritedKeys
  {
    if key in obj then Own(obj[key])
    else if key in InheritedKeys then Inherited(key)
    else Absent
  }

  /** `category ?? "other"` */
  function CategoryKey(category: Option<string>): string {
    category.GetOr("other")
  }

  /** `labelMap[c] ?? labelMap.other`, as written. */
  function LabelAsWritten(category: Option<string>): (r: Lookup<string>)
    ensures CategoryKey(category) !in InheritedKeys ==> r.Own?
  {
    match ObjectGet(LabelMap, CategoryKey(category))
    case Absent => Own(LabelMap["other"])
    case found => found
  }

  /** `styleMap[c] ?? styleMap.other`, as written. */
  function StyleAsWritten(category: Option<string>): (r: Lookup<Colors>)
    ensures CategoryKey(category) !in InheritedKeys ==> r.Own?
  {
    match ObjectGet(StyleMap, CategoryKey(category))
    case Absent => Own(StyleMap["other"])
    case found => found
  }

  /** An inherited property name bypasses both fallbacks: no label string and no colours. */
  lemma InheritedKeyBypassesFallback(key: string)
    requires key in InheritedKeys
    ensures LabelAsWritten(Some(key)) == Inherited(key)
    ensures StyleAsWritten(Some(key)) == Inherited(key)
  {
  }

  lemma ToStringCategoryHasNoLabel()
    ensures !LabelAsWritten(Some("toString")).Own?
  {
    InheritedKeyBypassesFallback("toString");
  }

  /** The label shown for a category: its own entry, or that of "other". */
  function Label(category: Option<string>): (r: string)
    ensures r in LabelMap.Values
    ensures category.None? ==> r == "その他"
    ensures CategoryKey(category) in Categories ==> r == LabelMap[CategoryKey(category)]
    ensures CategoryKey(category) !in Categories ==> r == LabelMap["other"]
  {
    var c := CategoryKey(category);
    if c in LabelMap then LabelMap[c] else LabelMap["other"]
  }

  /** The colours shown for a category: its own entry, or those of "other". */
  function Style(category: Option<string>): (r: Colors)
    ensures r in StyleMap.Values
    ensures CategoryKey(category) in Categories ==> r == StyleMap[CategoryKey(category)]
    ensures CategoryKey(category) !in Categories ==> r == StyleMap["other"]
  {
    var c := CategoryKey(category);
    if c in StyleMap then StyleMap[c] else StyleMap["other"]
  }

  /** Label and colours always belong to the same category. */
  lemma LabelAndStyleAgree(category: Option<string>)
    ensures exists k :: k in Categories && Label(category) == LabelMap[k] && Style(category) == StyleMap[k]
  {
    var c := CategoryKey(category);
    var k := if c in Categories then c else "other";
    assert Label(category) == LabelMap[k] && Style(category) == StyleMap[k];
  }

  /** The five categories have five different labels. */
  lemma LabelsDistinct(a: string, b: string)
    requires a in Categories && b in Categories && a != b
    ensures LabelMap[a] != LabelMap[b]
  {
  }

  /** Away from the inherited names, the code as written shows the intended label and colours. */
  lemma AsWrittenAgreesOutsideInheritedKeys(category: Option<string>)
    requires CategoryKey(category) !in InheritedKeys
    ensures LabelAsWritten(category) == Own(Label(category))
    ensures StyleAsWritten(category) == Own(Style(category))
  {
  }
}
