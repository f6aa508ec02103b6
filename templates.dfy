/**
 * The template composer: the draft being edited, the ordered list of saved
 * templates and the id of the template under edit. Saving validates the draft,
 * then appends a new template or replaces the edited one in place; deleting
 * filters by id. `editingId` is a string in which "" stands for `null`: the
 * component only ever tests it for truthiness, for which both are alike.
 */
module TemplateComposer {
  import opened Optional
  import opened Unique
  import opened TemplateVariables

  datatype HeaderKind = TextHeader | MediaHeader
  datatype Header = Header(kind: HeaderKind, content: string)
  datatype ButtonKind = QuickReply | Url | PhoneNumber
  datatype Button = Button(kind: ButtonKind, text: string, value: string)

  datatype Template = Template(
    id: string,
    name: string,
    category: string,
    header: Option<Header>,
    body: string,
    footer: Option<string>,
    buttons: Option<seq<Button>>,
    variables: seq<string>)

  /** The editor's `Partial<Template>`: the fields of a template other than its id. */
  datatype Draft = Draft(
    name: string,
    category: string,
    header: Option<Header>,
    body: string,
    footer: Option<string>,
    buttons: Option<seq<Button>>,
    variables: seq<string>)

  /** The draft the editor starts from and returns to after each save. */
  function EmptyDraft(): Draft {
    Draft("", "marketing", None, "", None, None, [])
  }

  function DraftOf(t: Template): Draft {
    Draft(t.name, t.category, t.header, t.body, t.footer, t.buttons, t.variables)
  }

  /** `footer || ''`. */
  function FooterText(footer: Option<string>): string {
    if footer.Some? then footer.value else ""
  }

  /** The variables of a header: only a text header contributes. */
  function HeaderVariables(header: Option<Header>): seq<string> {
    if header.Some? && header.value.kind == TextHeader then Extract(header.value.content) else []
  }

  /** Every token found, body first, then a text header, then the footer. */
  function Occurrences(d: Draft): seq<string> {
    Extract(d.body) + (HeaderVariables(d.header) + Extract(FooterText(d.footer)))
  }

  /**
   * What `updateVariables` computes: each variable of the draft once, body,
   * text header and footer scanned in that order.
   */
  function DraftVariables(d: Draft): (r: seq<string>)
    ensures NoDup(r)
    ensures forall i :: 0 <= i < |r| ==> r[i] in Occurrences(d)
    ensures forall i :: 0 <= i < |Occurrences(d)| ==> Occurrences(d)[i] in r
  {
    Dedup(Occurrences(d))
  }

  /** Every variable is a well-formed name. */
  lemma DraftVariablesAreNames(d: Draft)
    ensures forall i :: 0 <= i < |DraftVariables(d)| ==> IsName(DraftVariables(d)[i])
  {
    var occ := Occurrences(d);
    var e, h, f := Extract(d.body), HeaderVariables(d.header), Extract(FooterText(d.footer));
    assert occ == e + (h + f);
    assert forall i :: 0 <= i < |h| ==> IsName(h[i]);
    forall i | 0 <= i < |occ| ensures IsName(occ[i]) {
      if i < |e| {
        assert occ[i] == e[i];
      } else if i < |e| + |h| {
        assert occ[i] == h[i - |e|];
      } else {
        assert occ[i] == f[i - |e| - |h|];
      }
    }
  }

  /** The variables come in the order of their first occurrences. */
  lemma DraftVariablesOrder(d: Draft)
    ensures var r, occ := DraftVariables(d), Occurrences(d);
      forall i, j :: 0 <= i < j < |r| ==> FirstIndex(occ, r[i]) < FirstIndex(occ, r[j])
  {
    DedupOrder(Occurrences(d));
  }

  /** The body's variables come first, as the body alone would give them. */
  lemma DraftVariablesBodyFirst(d: Draft)
    ensures Dedup(Extract(d.body)) <= DraftVariables(d)
  {
    DedupPrefix(Extract(d.body), HeaderVariables(d.header) + Extract(FooterText(d.footer)));
  }

  /** A media header contributes nothing. */
  lemma MediaHeaderIgnored(d: Draft)
    requires d.header.Some? && d.header.value.kind == MediaHeader
    ensures DraftVariables(d) == DraftVariables(d.(header := None))
  {
  }

  /** `updateVariables` applied to the current draft. */
  function Refreshed(d: Draft): (r: Draft)
    ensures r.variables == DraftVariables(r)
    ensures r.(variables := d.variables) == d
  {
    d.(variables := DraftVariables(d))
  }

  /** Header `onChange`: installs a text header and leaves `variables` as they were. */
  function WithHeaderText(d: Draft, text: string): (r: Draft)
    ensures r.header == Some(Header(TextHeader, text))
    ensures r.(header := d.header) == d
  {
    d.(header := Some(Header(TextHeader, text)))
  }

  /**
   * Body `onChange` followed by the `updateVariables` it schedules. The
   * scheduled function is the one of the render that handled the event, so it
   * reads the draft as it was before the edit.
   */
  function WithBody(d: Draft, text: string): (r: Draft)
    ensures r.body == text && r.variables == DraftVariables(d)
    ensures r.(body := d.body, variables := d.variables) == d
  {
    d.(body := text, variables := DraftVariables(d))
  }

  /** Footer `onChange`, with the same scheduled `updateVariables` as the body. */
  function WithFooter(d: Draft, text: string): (r: Draft)
    ensures r.footer == Some(text) && r.variables == DraftVariables(d)
    ensures r.(footer := d.footer, variables := d.variables) == d
  {
    d.(footer := Some(text), variables := DraftVariables(d))
  }

  /** Variables computed after an edit describe the text before it: typing `{{n}}` into a new draft leaves them empty. */
  lemma BodyEditLagsBehind(n: string)
    requires IsName(n)
    ensures WithBody(EmptyDraft(), Token(n)).variables == []
    ensures DraftVariables(WithBody(EmptyDraft(), Token(n))) == [n]
  {
    var d := WithBody(EmptyDraft(), Token(n));
    ExtractTokenFirst(n, "");
    assert Token(n) + "" == Token(n);
    assert Occurrences(d) == [n];
    DedupOfDistinct([n]);
  }

  /** Repeating the same edit brings the variables up to date. */
  lemma RepeatedBodyEditCatchesUp(d: Draft, text: string)
    ensures var r := WithBody(WithBody(d, text), text); r.variables == DraftVariables(r)
  {
  }

  /** A header edit is not reflected in the variables that a save copies. */
  lemma HeaderEditNotSaved(n: string)
    requires IsName(n)
    ensures WithHeaderText(EmptyDraft(), Token(n)).variables == []
    ensures DraftVariables(WithHeaderText(EmptyDraft(), Token(n))) == [n]
  {
    var d := WithHeaderText(EmptyDraft(), Token(n));
    ExtractTokenFirst(n, "");
    assert Token(n) + "" == Token(n);
    assert Occurrences(d) == [n];
    DedupOfDistinct([n]);
  }

  /** The template `saveTemplate` builds: the draft as it is, with the category defaulting to marketing. */
  function BuildTemplate(d: Draft, id: string): (t: Template)
    ensures t.id == id && t.category != ""
    ensures d.category != "" ==> DraftOf(t) == d
    ensures d.category == "" ==> DraftOf(t) == d.(category := "marketing")
  {
    Template(id, d.name, if d.category == "" then "marketing" else d.category,
             d.header, d.body, d.footer, d.buttons, d.variables)
  }

  /** `prev.map(t => t.id === id ? template : t)`. */
  function ReplaceById(ts: seq<Template>, id: string, t: Template): (r: seq<Template>)
    ensures |r| == |ts|
    ensures forall i :: 0 <= i < |ts| ==> r[i] == if ts[i].id == id then t else ts[i]
  {
    if ts == [] then []
    else [if ts[0].id == id then t else ts[0]] + ReplaceById(ts[1..], id, t)
  }

  /** Replacing with a template that carries the same id keeps every position's id. */
  lemma ReplaceKeepsIds(ts: seq<Template>, id: string, t: Template)
    requires t.id == id
    ensures forall i :: 0 <= i < |ts| ==> ReplaceById(ts, id, t)[i].id == ts[i].id
  {
  }

  /** `prev.filter(t => t.id !== id)`. */
  function RemoveById(ts: seq<Template>, id: string): (r: seq<Template>)
    ensures |r| <= |ts|
    ensures forall i :: 0 <= i < |r| ==> r[i].id != id && r[i] in ts
    ensures forall i :: 0 <= i < |ts| && ts[i].id != id ==> ts[i] in r
    ensures (forall i :: 0 <= i < |ts| ==> ts[i].id != id) ==> r == ts
  {
    if ts == [] then []
    else
      var rest := RemoveById(ts[1..], id);
      if ts[0].id == id then rest else [ts[0]] + rest
  }

  /** Removal keeps the survivors in their original order. */
  lemma {:induction false} RemoveByIdDistributes(a: seq<Template>, b: seq<Template>, id: string)
    ensures RemoveById(a + b, id) == RemoveById(a, id) + RemoveById(b, id)
    decreases |a|
  {
    if a != [] {
      assert (a + b)[1..] == a[1..] + b;
      RemoveByIdDistributes(a[1..], b, id);
    } else {
      assert a + b == b;
    }
  }

  /** Deleting twice is deleting once. */
  lemma RemoveByIdIdempotent(ts: seq<Template>, id: string)
    ensures RemoveById(RemoveById(ts, id), id) == RemoveById(ts, id)
  {
  }

  /** What the preview shows. */
  datatype Preview = Preview(header: Option<string>, body: string, footer: Option<string>, buttons: seq<string>)

  /**
   * `renderPreview`: nothing without a body; otherwise the header (a text
   * header rendered, a media header as a placeholder), the rendered body, the
   * rendered footer when it is non-empty, and the button labels.
   */
  function PreviewOf(d: Draft, bindings: map<string, string>): (r: Option<Preview>)
    ensures r.None? <==> d.body == ""
    ensures r.Some? ==> r.value.body == Render(d.body, bindings)
    ensures r.Some? ==> (r.value.header.Some? <==> d.header.Some?)
    ensures r.Some? && d.header.Some? && d.header.value.kind == TextHeader ==>
      r.value.header == Some(Render(d.header.value.content, bindings))
    ensures r.Some? && d.header.Some? && d.header.value.kind == MediaHeader ==>
      r.value.header == Some("Media Header")
    ensures r.Some? ==> (r.value.footer.Some? <==> d.footer.Some? && d.footer.value != "")
    ensures r.Some? && r.value.footer.Some? ==> r.value.footer == Some(Render(d.footer.value, bindings))
    ensures r.Some? && d.buttons.None? ==> r.value.buttons == []
    ensures r.Some? && d.buttons.Some? ==>
      && |r.value.buttons| == |d.buttons.value|
      && forall i :: 0 <= i < |d.buttons.value| ==> r.value.buttons[i] == d.buttons.value[i].text
  {
    if d.body == "" then None
    else
      var header :=
        if d.header.None? then None
        else if d.header.value.kind == TextHeader then Some(Render(d.header.value.content, bindings))
        else Some("Media Header");
      var footer := if d.footer.Some? && d.footer.value != "" then Some(Render(d.footer.value, bindings)) else None;
      var buttons := if d.buttons.Some? then seq(|d.buttons.value|, i requires 0 <= i < |d.buttons.value| => d.buttons.value[i].text) else [];
      Some(Preview(header, Render(d.body, bindings), footer, buttons))
  }

  /** Without bindings the preview shows the body, a text header and the footer exactly as typed. */
  lemma PreviewWithoutBindings(d: Draft)
    requires d.body != ""
    ensures var p := PreviewOf(d, map[]).value;
      && p.body == d.body
      && (d.header.Some? && d.header.value.kind == TextHeader ==> p.header == Some(d.header.value.content))
      && (d.footer.Some? && d.footer.value != "" ==> p.footer == d.footer)
  {
    RenderWithoutBindings(d.body);
    if d.header.Some? {
      RenderWithoutBindings(d.header.value.content);
    }
    if d.footer.Some? {
      RenderWithoutBindings(d.footer.value);
    }
  }

  class TemplateEditor {
    var templates: seq<Template>
    var draft: Draft
    var editingId: string

    constructor ()
      ensures templates == [] && draft == EmptyDraft() && editingId == ""
    {
      templates := [];
      draft := EmptyDraft();
      editingId := "";
    }

    method EditName(name: string)
      modifies this
      ensures draft == old(draft).(name := name)
      ensures templates == old(templates) && editingId == old(editingId)
    {
      draft := draft.(name := name);
    }

    method EditCategory(category: string)
      modifies this
      ensures draft == old(draft).(category := category)
      ensures templates == old(templates) && editingId == old(editingId)
    {
      draft := draft.(category := category);
    }

    method EditHeader(text: string)
      modifies this
      ensures draft == WithHeaderText(old(draft), text)
      ensures templates == old(templates) && editingId == old(editingId)
    {
      draft := WithHeaderText(draft, text);
    }

    method EditBody(text: string)
      modifies this
      ensures draft == WithBody(old(draft), text)
      ensures templates == old(templates) && editingId == old(editingId)
    {
      draft := WithBody(draft, text);
    }

    method EditFooter(text: string)
      modifies this
      ensures draft == WithFooter(old(draft), text)
      ensures templates == old(templates) && editingId == old(editingId)
    {
      draft := WithFooter(draft, text);
    }

    /** `saveTemplate`; `freshId` stands for the time-based id of a new template. */
    method Save(freshId: string) returns (saved: bool)
      modifies this
      ensures saved <==> old(draft).name != "" && old(draft).body != ""
      ensures !saved ==> templates == old(templates) && draft == old(draft) && editingId == old(editingId)
      ensures saved && old(editingId) == "" ==>
        templates == old(templates) + [BuildTemplate(old(draft), freshId)]
      ensures saved && old(editingId) != "" ==>
        templates == ReplaceById(old(templates), old(editingId), BuildTemplate(old(draft), old(editingId)))
      ensures saved ==> draft == EmptyDraft() && editingId == ""
    {
      if draft.name == "" || draft.body == "" {
        return false;
      }
      var id := if editingId != "" then editingId else freshId;
      var template := BuildTemplate(draft, id);
      if editingId != "" {
        templates := ReplaceById(templates, editingId, template);
        editingId := "";
      } else {
        templates := templates + [template];
      }
      draft := EmptyDraft();
      saved := true;
    }

    /** `editTemplate`: loads a template into the draft and remembers its id. */
    method Edit(t: Template)
      modifies this
      ensures draft == DraftOf(t) && editingId == t.id
      ensures templates == old(templates)
    {
      draft := DraftOf(t);
      editingId := t.id;
    }

    /** `deleteTemplate`. */
    method Delete(id: string)
      modifies this
      ensures templates == RemoveById(old(templates), id)
      ensures draft == old(draft) && editingId == old(editingId)
    {
      templates := RemoveById(templates, id);
    }
  }
}
