/**
 * The document generator of the web client: it looks up the selected template and employee,
 * builds the field map of the employee, substitutes every `{{key}}` of the template text with
 * the field's value, and, for the preview, replaces the signature and stamp placeholders with
 * markers.
 */
module DocumentGenerator {
  import opened Wrappers
  import opened Strings
  import opened Placeholders
  import opened Employees
  import opened Collections
  import opened FieldMaps

  /** A row of `document_templates`; `content` is `template_content`, which may be null. */
  datatype Template = Template(id: string, name: string, content: Option<string>)

  /** The fields of a generated document, in the order its field map lists them. */
  const GenerateOrder: seq<FieldName> := [
    Nome, NomeColaborador, Loja, NomeLoja, FieldName.Rg, FieldName.Cpf, DataEmissao, DataCarta, Funcao, Cargo,
    Empresa, FieldName.Email, Telefone, Departamento, DataAdmissao, Salario, Endereco, Cidade,
    Estado, Cep, ContatoEmergencia, TelefoneEmergencia]

  /** The fields of the preview: the same, without `data_admissao` and `salario`. */
  const PreviewOrder: seq<FieldName> := [
    Nome, NomeColaborador, Loja, NomeLoja, FieldName.Rg, FieldName.Cpf, DataEmissao, DataCarta, Funcao, Cargo,
    Empresa, FieldName.Email, Telefone, Departamento, Endereco, Cidade, Estado, Cep,
    ContatoEmergencia, TelefoneEmergencia]

  /** The preview's field map is the generator's with its entries 14 and 15 taken out. */
  lemma PreviewOrderOmitsHireDateAndSalary()
    ensures GenerateOrder[14] == DataAdmissao && GenerateOrder[15] == Salario
    ensures PreviewOrder == GenerateOrder[..14] + GenerateOrder[16..]
    ensures !HasKey(PreviewOrder, "data_admissao") && !HasKey(PreviewOrder, "salario")
  {
    assert DataAdmissao !in PreviewOrder && Salario !in PreviewOrder;
    forall i | 0 <= i < |PreviewOrder|
      ensures Key(PreviewOrder[i]) != "data_admissao" && Key(PreviewOrder[i]) != "salario"
    {
      HireDateAndSalaryKeys(PreviewOrder[i]);
    }
  }

  // ---------------------------------------------------------------------------------------
  // Substitution

  /**
   * The text of a template after substitution: `template_content || ""`, and when that is not
   * empty, every rule of the field map applied to it in the map's order.
   */
  function SubstitutedText(content: Option<string>, fields: seq<Field>): string {
    if OrEmpty(content) == "" then "" else ApplyRules(OrEmpty(content), KeyRules(fields))
  }

  /**
   * `let processedText = template.template_content || ""; if (processedText) { for each
   * [key, value] of the field map: processedText = processedText.replace(new RegExp(`{{key}}`,
   * 'gi'), value) }`.
   */
  method Substitute(content: Option<string>, fields: seq<Field>) returns (processed: string)
    ensures processed == SubstitutedText(content, fields)
    ensures OrEmpty(content) == "" ==> processed == ""
  {
    processed := OrEmpty(content);
    if processed != "" {
      processed := ReplaceFields(processed, fields);
    }
  }

  /**
   * Later keys re-scan what earlier values put into the text: an employee whose name is
   * `{{cpf}}` turns the template `{{nome}}` into the CPF, because `cpf` comes after `nome`.
   */
  lemma EarlierValuesAreRescanned(e: Employee, f: Formatters)
    requires e.name == "{{cpf}}" && BraceFree(OrEmpty(e.cpf))
    ensures ApplyRules("{{nome}}", KeyRules(FieldMap(GenerateOrder, e, f))) == OrEmpty(e.cpf)
  {
    var rules := KeyRules(FieldMap(GenerateOrder, e, f));
    GenerateRulesAt(e, f);
    SkipsToCpf(e, f, rules[1..5]);
    BraceFreeValueIsFinal(GenerateOrder, e, f, 6, OrEmpty(e.cpf));
    RescanChain(rules, OrEmpty(e.cpf));
  }

  /** The chain of the previous lemma, for any table with those entries. */
  lemma RescanChain(rules: seq<Rule>, c: string)
    requires ValidRules(rules) && |rules| >= 6
    requires rules[0] == Rule("{{nome}}", "{{cpf}}") && rules[5] == Rule("{{cpf}}", c)
    requires ApplyRules("{{cpf}}", rules[1..5]) == "{{cpf}}" && ApplyRules(c, rules[6..]) == c
    ensures ApplyRules("{{nome}}", rules) == c
  {
    NameStep(rules[0]);
    assert rules[..1] == [rules[0]];
    CpfStep(rules[5], c);
    assert rules[1..][..4] == rules[1..5] && rules[1..][4..5] == [rules[5]] && rules[1..][5..] == rules[6..];
    KeptThenReplaced(rules[1..], "{{cpf}}", c);
    ApplyThrough("{{nome}}", "{{cpf}}", c, rules, 1);
  }

  /** `t` kept by the first four rules, turned into `c` by the fifth, and `c` kept by the others. */
  lemma KeptThenReplaced(rest: seq<Rule>, t: string, c: string)
    requires ValidRules(rest) && |rest| >= 5
    requires ApplyRules(t, rest[..4]) == t && ApplyRules(t, rest[4..5]) == c && ApplyRules(c, rest[5..]) == c
    ensures ApplyRules(t, rest) == c
  {
    assert rest[4..][..1] == rest[4..5] && rest[4..][1..] == rest[5..];
    ApplyThrough(t, c, c, rest[4..], 1);
    ApplyThrough(t, t, c, rest, 4);
  }

  /** Applying the rules up to `k` gives `mid`, and the rest take `mid` to `t`. */
  lemma ApplyThrough(s: string, mid: string, t: string, rules: seq<Rule>, k: nat)
    requires ValidRules(rules) && k <= |rules|
    requires ApplyRules(s, rules[..k]) == mid && ApplyRules(mid, rules[k..]) == t
    ensures ApplyRules(s, rules) == t
  {
    ApplyRulesSplitAt(s, rules, k);
  }

  /** The four rules between `nome` and `cpf` leave `{{cpf}}` alone. */
  lemma SkipsToCpf(e: Employee, f: Formatters, r1: seq<Rule>)
    requires r1 == KeyRules(FieldMap(GenerateOrder, e, f))[1..5]
    ensures ApplyRules("{{cpf}}", r1) == "{{cpf}}"
  {
    forall i | 0 <= i < 4 ensures NoMatch("{{cpf}}", r1[i].pattern) {
      CpfIsNoOtherPlaceholder(r1[i].pattern, GenerateOrder[i + 1]);
    }
    ApplyRulesNoMatch("{{cpf}}", r1);
  }

  /** A value without braces is not changed by the rules of any field map. */
  lemma BraceFreeValueIsFinal(order: seq<FieldName>, e: Employee, f: Formatters, k: nat, c: string)
    requires k <= |order| && BraceFree(c)
    ensures ApplyRules(c, KeyRules(FieldMap(order, e, f))[k..]) == c
  {
    var rs := KeyRules(FieldMap(order, e, f))[k..];
    forall i | 0 <= i < |rs| ensures NoMatch(c, rs[i].pattern) {
      assert rs[i].pattern == Brace(Key(order[i + k]));
      KeyIsLower(order[i + k]);
      BraceIsPlaceholder(Key(order[i + k]));
      BraceFreeNoMatch(c, rs[i].pattern);
    }
    ApplyRulesNoMatch(c, rs);
  }

  /** Entries 0 and 5 of the generator's table: `nome` and `cpf`. */
  lemma GenerateRulesAt(e: Employee, f: Formatters)
    ensures |KeyRules(FieldMap(GenerateOrder, e, f))| == 22
    ensures KeyRules(FieldMap(GenerateOrder, e, f))[0] == Rule("{{nome}}", e.name)
    ensures KeyRules(FieldMap(GenerateOrder, e, f))[5] == Rule("{{cpf}}", OrEmpty(e.cpf))
  {
    RulesAtNameAndCpf(GenerateOrder, e, f);
  }

  /** In a table with `nome` first and `cpf` sixth, those two rules. */
  lemma RulesAtNameAndCpf(order: seq<FieldName>, e: Employee, f: Formatters)
    requires |order| > 5 && order[0] == Nome && order[5] == FieldName.Cpf
    ensures |KeyRules(FieldMap(order, e, f))| == |order|
    ensures KeyRules(FieldMap(order, e, f))[0] == Rule("{{nome}}", e.name)
    ensures KeyRules(FieldMap(order, e, f))[5] == Rule("{{cpf}}", OrEmpty(e.cpf))
  {
  }

  lemma NameStep(r: Rule)
    requires r == Rule("{{nome}}", "{{cpf}}")
    ensures ApplyRules("{{nome}}", [r]) == "{{cpf}}"
  {
    assert MatchAt("{{nome}}", 0, "{{nome}}");
    assert "{{nome}}"[8..] == [];
  }

  lemma CpfStep(r: Rule, c: string)
    requires r == Rule("{{cpf}}", c)
    ensures ApplyRules("{{cpf}}", [r]) == c
  {
    assert MatchAt("{{cpf}}", 0, "{{cpf}}");
    assert "{{cpf}}"[7..] == [];
  }

  /** `{{key}}` is a placeholder when the key has no braces. */
  lemma BraceIsPlaceholder(k: string)
    requires LowerKey(k)
    ensures IsPlaceholder(Brace(k))
  {
  }

  /** `{{cpf}}` is no case variant of the placeholders of the four fields before it. */
  lemma CpfIsNoOtherPlaceholder(p: string, n: FieldName)
    requires n in [NomeColaborador, Loja, NomeLoja, FieldName.Rg] && p == Brace(Key(n))
    ensures NoMatch("{{cpf}}", p)
  {
    KeyIsLower(n);
    BraceIsPlaceholder(Key(n));
    BraceIsPlaceholder("cpf");
    LowerBrace(Key(n));
    assert Lower(Key(n)) == Key(n);
    assert |Lower(p)| != |Lower("{{cpf}}")|;
    TokenNoMatch("{{cpf}}", p);
  }

  /** In the preview, `{{data_admissao}}` and `{{salario}}` are not substituted. */
  lemma PreviewKeepsHireDateAndSalary(key: string, a: string, b: string, e: Employee, f: Formatters)
    requires key == "data_admissao" || key == "salario"
    ensures ApplyRules(a + Brace(key) + b, KeyRules(FieldMap(PreviewOrder, e, f)))
         == ApplyRules(a, KeyRules(FieldMap(PreviewOrder, e, f))) + Brace(key)
            + ApplyRules(b, KeyRules(FieldMap(PreviewOrder, e, f)))
  {
    PreviewOrderOmitsHireDateAndSalary();
    HireDateAndSalaryAreLowerCase(key);
    UnlistedPlaceholderSurvives(PreviewOrder, key, a, b, e, f);
  }

  lemma HireDateAndSalaryAreLowerCase(key: string)
    requires key == "data_admissao" || key == "salario"
    ensures Lower(key) == key && BraceFree(key)
  {
  }

  // ---------------------------------------------------------------------------------------
  // Preview markers

  const SignatureToken: string := "{{assinatura}}"
  const SignatureMarker: string := "[ASSINATURA SERÁ INSERIDA AQUI]"
  const StampToken: string := "{{carimbo}}"
  const StampMarker: string := "[CARIMBO SERÁ INSERIDO AQUI]"

  /**
   * `if (url && text.includes(token)) text = text.replace(/token/gi, marker)`: the test is
   * case-sensitive, the replacement is not.
   */
  function MarkerStep(text: string, url: Option<string>, token: string, marker: string): string
    requires |token| > 0
  {
    if IsSet(url) && Includes(text, token) then ReplaceAll(text, token, marker) else text
  }

  /** The preview text: the signature marker first, then the stamp marker. */
  function PreviewMarkers(text: string, e: Employee): string {
    MarkerStep(MarkerStep(text, e.signatureUrl, SignatureToken, SignatureMarker),
               e.stampUrl, StampToken, StampMarker)
  }

  /** Both markers are bracketed text without braces; no bracket occurs in either token. */
  lemma MarkerFacts()
    ensures IsPlaceholder(SignatureToken) && IsPlaceholder(StampToken)
    ensures BraceFree(SignatureMarker) && BraceFree(StampMarker)
    ensures |SignatureMarker| > 0 && SignatureMarker[0] == '[' && SignatureMarker[|SignatureMarker| - 1] == ']'
    ensures |StampMarker| > 0 && StampMarker[0] == '[' && StampMarker[|StampMarker| - 1] == ']'
    ensures !FoldsInto('[', SignatureToken) && !FoldsInto(']', SignatureToken)
    ensures !FoldsInto('[', StampToken) && !FoldsInto(']', StampToken)
  {
    TokenFacts("assinatura");
    assert SignatureToken == Brace("assinatura");
    TokenFacts("carimbo");
    assert StampToken == Brace("carimbo");
  }

  /** `{{key}}` for a field-name key is a placeholder in which no bracket folds. */
  lemma TokenFacts(key: string)
    requires LowerKey(key)
    ensures IsPlaceholder(Brace(key)) && !FoldsInto('[', Brace(key)) && !FoldsInto(']', Brace(key))
  {
    BraceIsPlaceholder(key);
    var p := Brace(key);
    forall k | 0 <= k < |p| ensures LowerChar(p[k]) != '[' && LowerChar(p[k]) != ']' {
      if 2 <= k < |p| - 2 {
        assert p[k] == p[2..|p| - 2][k - 2] == key[k - 2];
      } else if k < 2 {
        assert p[k] == p[..2][k];
      } else {
        assert p[k] == p[|p| - 2..][k - (|p| - 2)];
      }
    }
  }

  /**
   * When the marker step fires, no case variant of its token is left in the text, and it
   * cannot have formed a case variant of another placeholder that was absent before.
   */
  lemma MarkerStepRemovesToken(text: string, url: Option<string>, token: string, marker: string, q: string)
    requires IsPlaceholder(token) && IsPlaceholder(q) && !FoldsInto('[', q) && !FoldsInto(']', q)
    requires BraceFree(marker) && |marker| > 0 && marker[0] == '[' && marker[|marker| - 1] == ']'
    requires IsSet(url) && Includes(text, token)
    requires q == token || NoMatch(text, q)
    ensures NoMatch(MarkerStep(text, url, token, marker), q)
  {
    BraceFreeNoMatch(marker, q);
    ReplaceAvoids(text, token, marker, q);
  }

  /**
   * With a signature image, a text holding the exact token `{{assinatura}}` loses every case
   * variant of it in the preview (the stamp step after it does not bring one back); with a
   * stamp image, the same holds for `{{carimbo}}`.
   */
  lemma PreviewReplacesAllVariants(text: string, e: Employee)
    ensures IsSet(e.signatureUrl) && Includes(text, SignatureToken) ==> NoMatch(PreviewMarkers(text, e), SignatureToken)
    ensures (IsSet(e.stampUrl) && Includes(MarkerStep(text, e.signatureUrl, SignatureToken, SignatureMarker), StampToken))
              ==> NoMatch(PreviewMarkers(text, e), StampToken)
  {
    MarkerFacts();
    var t1 := MarkerStep(text, e.signatureUrl, SignatureToken, SignatureMarker);
    if IsSet(e.signatureUrl) && Includes(text, SignatureToken) {
      MarkerStepRemovesToken(text, e.signatureUrl, SignatureToken, SignatureMarker, SignatureToken);
      if IsSet(e.stampUrl) && Includes(t1, StampToken) {
        MarkerStepRemovesToken(t1, e.stampUrl, StampToken, StampMarker, SignatureToken);
      }
    }
    if IsSet(e.stampUrl) && Includes(t1, StampToken) {
      MarkerStepRemovesToken(t1, e.stampUrl, StampToken, StampMarker, StampToken);
    }
  }

  /**
   * Without the exact lower-case token the step does nothing, even when an upper-case variant
   * such as `{{ASSINATURA}}` is present, which the replacement itself would have matched.
   */
  lemma UpperCaseSignatureKept(e: Employee)
    requires IsSet(e.signatureUrl)
    ensures MatchAt("{{ASSINATURA}}", 0, SignatureToken)
    ensures PreviewMarkers("{{ASSINATURA}}", e) == "{{ASSINATURA}}"
  {
    var s := "{{ASSINATURA}}";
    assert !Includes(s, SignatureToken) by {
      forall i | 0 <= i <= |s| ensures !OccursAt(s, i, SignatureToken) {
        if i == 0 {
          assert s[0..14][2] != SignatureToken[2];
        }
      }
    }
    assert !Includes(s, StampToken) by {
      forall i | 0 <= i <= |s| ensures !OccursAt(s, i, StampToken) {
        if i + |StampToken| <= |s| {
          assert s[i..i + |StampToken|][2] != StampToken[2];
        }
      }
    }
  }

  // ---------------------------------------------------------------------------------------
  // Generating and previewing

  const TemplateNotFound: string := "Template não encontrado"
  const EmployeeNotFound: string := "Funcionário não encontrado. Selecione um funcionário da lista."
  const NotAuthenticated: string := "Usuário não autenticado"

  function TemplateWithId(id: string): Template -> bool {
    (t: Template) => t.id == id
  }

  function EmployeeWithId(id: string): Employee -> bool {
    (e: Employee) => e.id == id
  }

  /** `x || undefined` for a nullable text column. */
  function OrUndefined(o: Option<string>): (r: Option<string>)
    ensures r.Some? <==> IsSet(o)
    ensures r.Some? ==> r.value != "" && o == r
  {
    if IsSet(o) then o else None
  }

  /** The row inserted into `generated_documents`; `data` holds the field map and the text. */
  datatype GeneratedDocument = GeneratedDocument(
    employeeName: string,
    templateId: string,
    templateName: string,
    status: string,
    fields: seq<Field>,
    processedText: string,
    companyLogoUrl: Option<string>,
    signatureUrl: Option<string>,
    stampUrl: Option<string>,
    createdAt: string,
    userId: string)

  /**
   * `generateDocument`: the template is looked up first, then the employee, then the signed-in
   * user; the text is substituted with the generator's field map. `user` is the signed-in
   * user's id, `now` the creation time as the client writes it, and `insertError` the error
   * the insert into `generated_documents` reports, if any; it is thrown as the result.
   */
  method GenerateDocument(templates: seq<Template>, employees: seq<Employee>, templateId: string,
                          employeeId: string, user: Option<string>, now: string, f: Formatters,
                          insertError: Option<string>)
    returns (r: Result<GeneratedDocument, string>)
    ensures Find(templates, TemplateWithId(templateId)).None? ==> r == Failure(TemplateNotFound)
    ensures (Find(templates, TemplateWithId(templateId)).Some?
             && Find(employees, EmployeeWithId(employeeId)).None?) ==> r == Failure(EmployeeNotFound)
    ensures (Find(templates, TemplateWithId(templateId)).Some?
             && Find(employees, EmployeeWithId(employeeId)).Some? && user.None?) ==> r == Failure(NotAuthenticated)
    ensures (Find(templates, TemplateWithId(templateId)).Some?
             && Find(employees, EmployeeWithId(employeeId)).Some? && user.Some? && insertError.Some?)
            ==> r == Failure(insertError.value)
    ensures r.Success? <==> Find(templates, TemplateWithId(templateId)).Some?
                            && Find(employees, EmployeeWithId(employeeId)).Some? && user.Some?
                            && insertError.None?
    ensures r.Success? ==>
              var t, e := Find(templates, TemplateWithId(templateId)).value, Find(employees, EmployeeWithId(employeeId)).value;
              r.value == GeneratedDocument(
                e.name, templateId, t.name, "completed", FieldMap(GenerateOrder, e, f),
                SubstitutedText(t.content, FieldMap(GenerateOrder, e, f)),
                OrUndefined(e.companyLogoUrl), OrUndefined(e.signatureUrl), OrUndefined(e.stampUrl),
                now, user.value)
  {
    var template := Find(templates, TemplateWithId(templateId));
    if template.None? {
      return Failure(TemplateNotFound);
    }
    var employee := Find(employees, EmployeeWithId(employeeId));
    if employee.None? {
      return Failure(EmployeeNotFound);
    }
    var t, e := template.value, employee.value;
    var fields := FieldMap(GenerateOrder, e, f);
    var processed := Substitute(t.content, fields);
    if user.None? {
      return Failure(NotAuthenticated);
    }
    if insertError.Some? {
      return Failure(insertError.value);
    }
    r := Success(GeneratedDocument(
      e.name, templateId, t.name, "completed", fields, processed,
      OrUndefined(e.companyLogoUrl), OrUndefined(e.signatureUrl), OrUndefined(e.stampUrl),
      now, user.value));
  }

  /** What the preview dialog shows. */
  datatype PreviewData = PreviewData(
    employeeName: string,
    templateName: string,
    previewText: string,
    originalProcessedText: string,
    companyLogoUrl: Option<string>,
    signatureUrl: Option<string>,
    stampUrl: Option<string>,
    createdAt: string)

  /**
   * `handlePreview` once both selections are made: nothing is shown unless the template and
   * the employee are found; the text is substituted with the preview's field map, then the
   * signature and stamp markers are put in.
   */
  method Preview(templates: seq<Template>, employees: seq<Employee>, templateId: string,
                 employeeId: string, now: string, f: Formatters)
    returns (r: Option<PreviewData>)
    ensures r.Some? <==> Find(templates, TemplateWithId(templateId)).Some?
                         && Find(employees, EmployeeWithId(employeeId)).Some?
    ensures r.Some? ==>
              var t, e := Find(templates, TemplateWithId(templateId)).value, Find(employees, EmployeeWithId(employeeId)).value;
              var processed := SubstitutedText(t.content, FieldMap(PreviewOrder, e, f));
              r.value == PreviewData(e.name, t.name, PreviewMarkers(processed, e), processed,
                                     e.companyLogoUrl, e.signatureUrl, e.stampUrl, now)
  {
    var template := Find(templates, TemplateWithId(templateId));
    var employee := Find(employees, EmployeeWithId(employeeId));
    if template.None? || employee.None? {
      return None;
    }
    var t, e := template.value, employee.value;
    var processedText := Substitute(t.content, FieldMap(PreviewOrder, e, f));
    var previewText := processedText;
    if IsSet(e.signatureUrl) && Includes(previewText, SignatureToken) {
      previewText := ReplaceAll(previewText, SignatureToken, SignatureMarker);
    }
    if IsSet(e.stampUrl) && Includes(previewText, StampToken) {
      previewText := ReplaceAll(previewText, StampToken, StampMarker);
    }
    r := Some(PreviewData(e.name, t.name, previewText, processedText,
                          e.companyLogoUrl, e.signatureUrl, e.stampUrl, now));
  }
}
