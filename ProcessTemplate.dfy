/**
 * The `process-template` function: it reads the text of a template's Google Doc, substitutes
 * the employee's fields into it, and returns the text, the field values by name, and the
 * document's title.
 */
module ProcessTemplate {
  import opened Wrappers
  import opened Strings
  import opened Placeholders
  import opened Employees
  import opened Collections
  import opened FieldMaps

  // ---------------------------------------------------------------------------------------
  // The parts of a Google Docs document the function reads

  datatype TextRun = TextRun(content: Option<string>)
  datatype ParagraphElement = ParagraphElement(textRun: Option<TextRun>)
  datatype Paragraph = Paragraph(elements: seq<ParagraphElement>)
  /** A structural element of the body: a paragraph, or something else (a table, a break). */
  datatype StructuralElement = StructuralElement(paragraph: Option<Paragraph>)
  datatype Body = Body(content: Option<seq<StructuralElement>>)
  datatype GoogleDoc = GoogleDoc(title: Option<string>, body: Option<Body>)

  /** What an element of a paragraph contributes: its text run's content, if any. */
  function RunText(pe: ParagraphElement): string {
    if pe.textRun.Some? then OrEmpty(pe.textRun.value.content) else ""
  }

  /** The text of the elements of a paragraph, in order. */
  function ParagraphText(es: seq<ParagraphElement>): string {
    if es == [] then "" else ParagraphText(es[..|es| - 1]) + RunText(es[|es| - 1])
  }

  /** What a structural element contributes: the text of its paragraph, or nothing. */
  function ElementText(el: StructuralElement): string {
    if el.paragraph.Some? then ParagraphText(el.paragraph.value.elements) else ""
  }

  /** The text of a sequence of structural elements, in order. */
  function ElementsText(els: seq<StructuralElement>): string {
    if els == [] then "" else ElementsText(els[..|els| - 1]) + ElementText(els[|els| - 1])
  }

  /** The text of a document: that of its body's content, or "" when it has no body or content. */
  function DocumentText(doc: GoogleDoc): string {
    if doc.body.Some? && doc.body.value.content.Some? then ElementsText(doc.body.value.content.value)
    else ""
  }

  /** The text of two runs of elements is the text of the first, then that of the second. */
  lemma {:induction false} ElementsTextAppend(a: seq<StructuralElement>, b: seq<StructuralElement>)
    ensures ElementsText(a + b) == ElementsText(a) + ElementsText(b)
    decreases |b|
  {
    if b == [] {
      assert a + b == a;
    } else {
      var b' := b[..|b| - 1];
      assert (a + b)[..|a + b| - 1] == a + b';
      assert (a + b)[|a + b| - 1] == b[|b| - 1];
      ElementsTextAppend(a, b');
      assert ElementsText(a + b) == ElementsText(a + b') + ElementText(b[|b| - 1]);
      assert ElementsText(b) == ElementsText(b') + ElementText(b[|b| - 1]);
    }
  }

  /** The same for the elements of a paragraph. */
  lemma {:induction false} ParagraphTextAppend(a: seq<ParagraphElement>, b: seq<ParagraphElement>)
    ensures ParagraphText(a + b) == ParagraphText(a) + ParagraphText(b)
    decreases |b|
  {
    if b == [] {
      assert a + b == a;
    } else {
      var b' := b[..|b| - 1];
      assert (a + b)[..|a + b| - 1] == a + b';
      assert (a + b)[|a + b| - 1] == b[|b| - 1];
      ParagraphTextAppend(a, b');
      assert ParagraphText(a + b) == ParagraphText(a + b') + RunText(b[|b| - 1]);
      assert ParagraphText(b) == ParagraphText(b') + RunText(b[|b| - 1]);
    }
  }

  /** The text of one structural element alone. */
  lemma ElementsTextOne(el: StructuralElement)
    ensures ElementsText([el]) == ElementText(el)
  {
    assert [el][..0] == [];
  }

  /** The text of one paragraph element alone. */
  lemma ParagraphTextOne(pe: ParagraphElement)
    ensures ParagraphText([pe]) == RunText(pe)
  {
    assert [pe][..0] == [];
  }

  /** An element that is not a paragraph adds nothing to the text, wherever it stands. */
  lemma NonParagraphAddsNothing(a: seq<StructuralElement>, el: StructuralElement, b: seq<StructuralElement>)
    requires el.paragraph.None?
    ensures ElementsText(a + [el] + b) == ElementsText(a + b)
  {
    ElementsTextOne(el);
    ElementsTextAppend(a, [el]);
    ElementsTextAppend(a + [el], b);
    ElementsTextAppend(a, b);
  }

  /** A text run without content, or an element without a text run, adds nothing either. */
  lemma EmptyRunAddsNothing(a: seq<ParagraphElement>, pe: ParagraphElement, b: seq<ParagraphElement>)
    requires pe.textRun.None? || !IsSet(pe.textRun.value.content)
    ensures ParagraphText(a + [pe] + b) == ParagraphText(a + b)
  {
    ParagraphTextOne(pe);
    ParagraphTextAppend(a, [pe]);
    ParagraphTextAppend(a + [pe], b);
    ParagraphTextAppend(a, b);
  }

  /** The text of the first `i + 1` elements: that of the first `i`, then that of element `i`. */
  lemma ElementsTextPrefix(content: seq<StructuralElement>, i: int)
    requires 0 <= i < |content|
    ensures ElementsText(content[..i + 1]) == ElementsText(content[..i]) + ElementText(content[i])
  {
    assert content[..i + 1][..i] == content[..i];
  }

  lemma ParagraphTextPrefix(elements: seq<ParagraphElement>, j: int)
    requires 0 <= j < |elements|
    ensures ParagraphText(elements[..j + 1]) == ParagraphText(elements[..j]) + RunText(elements[j])
  {
    assert elements[..j + 1][..j] == elements[..j];
  }

  lemma AppendAssociates(a: string, b: string, c: string)
    ensures a + b + c == a + (b + c)
  {
  }

  /**
   * The inner loop: the content of every text run of a paragraph that has some is appended to
   * `documentText`.
   */
  method AppendRuns(text: string, elements: seq<ParagraphElement>) returns (r: string)
    ensures r == text + ParagraphText(elements)
  {
    r := text;
    assert elements[..0] == [];
    for j := 0 to |elements|
      invariant r == text + ParagraphText(elements[..j])
    {
      ParagraphTextPrefix(elements, j);
      var run := elements[j].textRun;
      if run.Some? && run.value.content.Some? && run.value.content.value != "" {
        AppendAssociates(text, ParagraphText(elements[..j]), RunText(elements[j]));
        r := r + run.value.content.value;
      } else {
        assert RunText(elements[j]) == "";
        assert ParagraphText(elements[..j + 1]) == ParagraphText(elements[..j]);
      }
    }
    assert elements[..|elements|] == elements;
  }

  /**
   * The outer loop: the text of every paragraph of the body is appended to `documentText`,
   * which starts as "".
   */
  method ExtractText(doc: GoogleDoc) returns (text: string)
    ensures text == DocumentText(doc)
    ensures doc.body.None? ==> text == ""
  {
    text := "";
    if doc.body.Some? && doc.body.value.content.Some? {
      var content := doc.body.value.content.value;
      for i := 0 to |content|
        invariant text == ElementsText(content[..i])
      {
        ElementsTextPrefix(content, i);
        var element := content[i];
        if element.paragraph.Some? {
          text := AppendRuns(text, element.paragraph.value.elements);
        } else {
          assert ElementsText(content[..i + 1]) == ElementsText(content[..i]);
        }
      }
      assert content[..|content|] == content;
    }
  }

  // ---------------------------------------------------------------------------------------
  // The replacement table

  /**
   * The fields of the replacement table: those of the web client's generator, with the work
   * card number and series after the salary.
   */
  const ReplacementOrder: seq<FieldName> := [
    Nome, NomeColaborador, Loja, NomeLoja, FieldName.Rg, FieldName.Cpf, DataEmissao, DataCarta, Funcao, Cargo,
    Empresa, FieldName.Email, Telefone, Departamento, DataAdmissao, Salario,
    NumeroCarteiraTrabalho, Serie, Endereco, Cidade, Estado, Cep, ContatoEmergencia,
    TelefoneEmergencia]

  /** The table itself: `'{{key}}': employee.column || ''`, or a formatted date or number. */
  function Replacements(e: Employee, f: Formatters): seq<Field> {
    FieldMap(ReplacementOrder, e, f)
  }

  /** `key.replace(/{{|}}/g, '')`: every `{{` and every `}}`, scanned left to right, removed. */
  function RemoveBraces(s: string): (r: string)
    ensures |r| <= |s|
    decreases |s|
  {
    if |s| >= 2 && (s[..2] == "{{" || s[..2] == "}}") then RemoveBraces(s[2..])
    else if s == [] then []
    else [s[0]] + RemoveBraces(s[1..])
  }

  /** A text without braces is left as it is. */
  lemma {:induction false} RemoveBracesOfBraceFree(s: string)
    requires BraceFree(s)
    ensures RemoveBraces(s) == s
    decreases |s|
  {
    if s != [] {
      RemoveBracesStep(s);
      RemoveBracesOfBraceFree(s[1..]);
    }
  }

  /** Removing the braces of `{{key}}` gives back the key. */
  lemma RemoveBracesOfPlaceholder(key: string)
    requires BraceFree(key)
    ensures RemoveBraces(Brace(key)) == key
  {
    var p := Brace(key);
    assert p[..2] == "{{";
    var q := p[2..];
    assert q == key + "}}";
    RemoveBracesChars(key, "}}");
    assert RemoveBraces("}}") == "";
  }

  /** Before a brace-free prefix nothing is removed. */
  lemma {:induction false} RemoveBracesChars(key: string, rest: string)
    requires BraceFree(key)
    ensures RemoveBraces(key + rest) == key + RemoveBraces(rest)
    decreases |key|
  {
    if key != [] {
      var s := key + rest;
      BraceFreeSplit(key, rest);
      RemoveBracesStep(s);
      RemoveBracesChars(key[1..], rest);
      assert [key[0]] + (key[1..] + RemoveBraces(rest)) == key + RemoveBraces(rest);
    } else {
      assert key + rest == rest;
    }
  }

  lemma BraceFreeSplit(key: string, rest: string)
    requires key != [] && BraceFree(key)
    ensures (key + rest)[0] == key[0] && key[0] != '{' && key[0] != '}'
    ensures (key + rest)[1..] == key[1..] + rest
    ensures BraceFree(key[1..])
  {
    assert forall i :: 0 <= i < |key| - 1 ==> key[1..][i] == key[i + 1];
  }

  /** A character that is no brace is kept. */
  lemma RemoveBracesStep(s: string)
    requires s != [] && s[0] != '{' && s[0] != '}'
    ensures RemoveBraces(s) == [s[0]] + RemoveBraces(s[1..])
  {
    if |s| >= 2 {
      assert s[..2][0] == s[0];
    }
  }

  // ---------------------------------------------------------------------------------------
  // templateData

  /** `templateData` after the `forEach` has written the entries of `fields` in order. */
  function DataMap(fields: seq<Field>): map<string, string> {
    if fields == [] then map[]
    else DataMap(fields[..|fields| - 1])[RemoveBraces(Brace(fields[|fields| - 1].key)) := fields[|fields| - 1].value]
  }

  /**
   * `Object.entries(replacements).forEach(([key, value]) => { templateData[key.replace(/{{|}}/g,
   * '')] = value })`, with `templateData` starting empty.
   */
  method BuildTemplateData(fields: seq<Field>) returns (data: map<string, string>)
    ensures data == DataMap(fields)
  {
    data := map[];
    for i := 0 to |fields|
      invariant data == DataMap(fields[..i])
    {
      assert fields[..i + 1][..i] == fields[..i];
      var cleanKey := RemoveBraces(Brace(fields[i].key));
      data := data[cleanKey := fields[i].value];
    }
    assert fields[..|fields|] == fields;
  }

  /** The names of `templateData` are those of the entries with the braces removed. */
  lemma {:induction false} DataMapKeys(fields: seq<Field>)
    ensures DataMap(fields).Keys == set i | 0 <= i < |fields| :: RemoveBraces(Brace(fields[i].key))
  {
    if fields != [] {
      var init := fields[..|fields| - 1];
      DataMapKeys(init);
      assert forall i :: 0 <= i < |init| ==> init[i] == fields[i];
    }
  }

  /**
   * `templateData` holds under each name the value of the last entry with that name: the one
   * that wrote it last.
   */
  lemma {:induction false} DataMapLastWins(fields: seq<Field>, i: int)
    requires 0 <= i < |fields|
    requires forall j :: i < j < |fields| ==> RemoveBraces(Brace(fields[j].key)) != RemoveBraces(Brace(fields[i].key))
    ensures RemoveBraces(Brace(fields[i].key)) in DataMap(fields)
    ensures DataMap(fields)[RemoveBraces(Brace(fields[i].key))] == fields[i].value
  {
    if i < |fields| - 1 {
      var init := fields[..|fields| - 1];
      assert init[i] == fields[i];
      forall j | i < j < |init| ensures RemoveBraces(Brace(init[j].key)) != RemoveBraces(Brace(init[i].key)) {
        assert init[j] == fields[j];
      }
      DataMapLastWins(init, i);
    }
  }

  /** No field occurs twice in `order`. */
  predicate Distinct(order: seq<FieldName>) {
    forall i, j :: 0 <= i < j < |order| ==> order[i] != order[j]
  }

  /** The names of the `templateData` of a field map are its keys. */
  lemma DataMapOfFieldMapKeys(order: seq<FieldName>, e: Employee, f: Formatters)
    ensures DataMap(FieldMap(order, e, f)).Keys == set i | 0 <= i < |order| :: Key(order[i])
  {
    var fields := FieldMap(order, e, f);
    CleanKeys(order, e, f);
    DataMapKeys(fields);
    assert (set i | 0 <= i < |fields| :: RemoveBraces(Brace(fields[i].key)))
        == (set i | 0 <= i < |order| :: Key(order[i]));
  }

  /** Removing the braces of a field map's patterns gives back their keys. */
  lemma CleanKeys(order: seq<FieldName>, e: Employee, f: Formatters)
    ensures forall j :: 0 <= j < |order| ==>
              RemoveBraces(Brace(FieldMap(order, e, f)[j].key)) == Key(order[j])
  {
    forall j | 0 <= j < |order| ensures RemoveBraces(Brace(Key(order[j]))) == Key(order[j]) {
      KeyIsLower(order[j]);
      RemoveBracesOfPlaceholder(Key(order[j]));
    }
  }

  /**
   * When no field occurs twice in the map, its `templateData` maps every key to the value the
   * placeholder of that key is replaced by.
   */
  lemma DataMapOfFieldMap(order: seq<FieldName>, e: Employee, f: Formatters, i: int)
    requires Distinct(order) && 0 <= i < |order|
    ensures Key(order[i]) in DataMap(FieldMap(order, e, f))
    ensures DataMap(FieldMap(order, e, f))[Key(order[i])] == ColumnValue(e, Source(order[i]), f)
  {
    var fields := FieldMap(order, e, f);
    CleanKeys(order, e, f);
    forall j | i < j < |fields| ensures RemoveBraces(Brace(fields[j].key)) != RemoveBraces(Brace(fields[i].key)) {
      KeyIsInjective(order[i], order[j]);
    }
    DataMapLastWins(fields, i);
  }

  /** The place of each field in the replacement table. */
  function TablePosition(n: FieldName): nat {
    match n
    case Nome => 0
    case NomeColaborador => 1
    case Loja => 2
    case NomeLoja => 3
    case Rg => 4
    case Cpf => 5
    case DataEmissao => 6
    case DataCarta => 7
    case Funcao => 8
    case Cargo => 9
    case Empresa => 10
    case Email => 11
    case Telefone => 12
    case Departamento => 13
    case DataAdmissao => 14
    case Salario => 15
    case NumeroCarteiraTrabalho => 16
    case Serie => 17
    case Endereco => 18
    case Cidade => 19
    case Estado => 20
    case Cep => 21
    case ContatoEmergencia => 22
    case TelefoneEmergencia => 23
  }

  /** The replacement table lists every field once. */
  lemma ReplacementOrderLists(n: FieldName)
    ensures |ReplacementOrder| == 24 && TablePosition(n) < 24 && ReplacementOrder[TablePosition(n)] == n
  {
  }

  lemma ReplacementOrderPositions()
    ensures Distinct(ReplacementOrder)
  {
    assert forall i :: 0 <= i < |ReplacementOrder| ==> TablePosition(ReplacementOrder[i]) == i;
  }

  /**
   * The `templateData` of an employee maps the name of every field to the value its
   * placeholder is replaced by, and has no other names.
   */
  lemma TemplateDataOfEmployee(e: Employee, f: Formatters, n: FieldName)
    ensures DataMap(Replacements(e, f)).Keys == set i | 0 <= i < |ReplacementOrder| :: Key(ReplacementOrder[i])
    ensures Key(n) in DataMap(Replacements(e, f))
    ensures DataMap(Replacements(e, f))[Key(n)] == ColumnValue(e, Source(n), f)
  {
    DataMapOfFieldMapKeys(ReplacementOrder, e, f);
    ReplacementOrderLists(n);
    ReplacementOrderPositions();
    DataMapOfFieldMap(ReplacementOrder, e, f, TablePosition(n));
  }

  /** Every field absent from the employee has the value "" in `templateData`. */
  lemma AbsentFieldsAreEmptyInTemplateData(e: Employee, f: Formatters, n: FieldName)
    requires !Present(e, Source(n))
    ensures Key(n) in DataMap(Replacements(e, f))
    ensures DataMap(Replacements(e, f))[Key(n)] == ""
  {
    TemplateDataOfEmployee(e, f, n);
  }

  // ---------------------------------------------------------------------------------------
  // The request

  /** A row of `document_templates`, as this function reads it. */
  datatype TemplateRow = TemplateRow(id: string, name: string, googleDocId: string)

  /** The outcome of fetching a document from the Google Docs API. */
  datatype DocResponse = Fetched(doc: GoogleDoc) | FetchFailed(statusText: string)

  /** The JSON the function answers with; every failure is status 400. */
  datatype Response =
    | Processed(processedText: string, templateData: map<string, string>, documentTitle: string)
    | BadRequest(error: string)

  const TemplateNotFound: string := "Template não encontrado"
  const EmployeeNotFound: string := "Funcionário não encontrado"
  const FetchErrorPrefix: string := "Erro ao buscar template do Google Docs: "

  function TemplateWithId(id: string): TemplateRow -> bool {
    (t: TemplateRow) => t.id == id
  }

  function EmployeeWithId(id: string): Employee -> bool {
    (e: Employee) => e.id == id
  }

  /** `docData.title || template.name`. */
  function DocumentTitle(title: Option<string>, templateName: string): (r: string)
    ensures r == "" <==> !IsSet(title) && templateName == ""
    ensures r == templateName || title == Some(r)
    ensures IsSet(title) ==> r == title.value
  {
    if IsSet(title) then title.value else templateName
  }

  /**
   * The request for `templateId` and `employeeId`: the template, then the employee, then the
   * document are looked up, and the first that fails decides the error. `fetch` is the Google
   * Docs API, by document id.
   */
  method Process(templates: seq<TemplateRow>, employees: seq<Employee>, templateId: string,
                 employeeId: string, fetch: string -> DocResponse, f: Formatters)
    returns (r: Response)
    ensures Find(templates, TemplateWithId(templateId)).None? ==> r == BadRequest(TemplateNotFound)
    ensures (Find(templates, TemplateWithId(templateId)).Some?
             && Find(employees, EmployeeWithId(employeeId)).None?) ==> r == BadRequest(EmployeeNotFound)
    ensures (Find(templates, TemplateWithId(templateId)).Some?
             && Find(employees, EmployeeWithId(employeeId)).Some?
             && fetch(Find(templates, TemplateWithId(templateId)).value.googleDocId).FetchFailed?)
            ==> r == BadRequest(FetchErrorPrefix + fetch(Find(templates, TemplateWithId(templateId)).value.googleDocId).statusText)
    ensures r.Processed? ==>
              var t, e := Find(templates, TemplateWithId(templateId)).value, Find(employees, EmployeeWithId(employeeId)).value;
              fetch(t.googleDocId).Fetched?
              && r == Processed(ApplyRules(DocumentText(fetch(t.googleDocId).doc), KeyRules(Replacements(e, f))),
                                DataMap(Replacements(e, f)),
                                DocumentTitle(fetch(t.googleDocId).doc.title, t.name))
    ensures r.Processed? <==> (Find(templates, TemplateWithId(templateId)).Some?
                               && Find(employees, EmployeeWithId(employeeId)).Some?
                               && fetch(Find(templates, TemplateWithId(templateId)).value.googleDocId).Fetched?)
  {
    var template := Find(templates, TemplateWithId(templateId));
    if template.None? {
      return BadRequest(TemplateNotFound);
    }
    var employee := Find(employees, EmployeeWithId(employeeId));
    if employee.None? {
      return BadRequest(EmployeeNotFound);
    }
    var t, e := template.value, employee.value;
    var response := fetch(t.googleDocId);
    if response.FetchFailed? {
      return BadRequest(FetchErrorPrefix + response.statusText);
    }
    var documentText := ExtractText(response.doc);
    var replacements := Replacements(e, f);
    var processedText := ReplaceFields(documentText, replacements);
    var templateData := BuildTemplateData(replacements);
    r := Processed(processedText, templateData, DocumentTitle(response.doc.title, t.name));
  }
}
