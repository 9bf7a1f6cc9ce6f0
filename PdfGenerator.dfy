/**
 * `generatePDF`: the fields of a generated document listed as "label: value" blocks on A4
 * pages, under the template's and the employee's names, with one footer.
 */
module PdfGenerator {
  import opened Wrappers
  import opened Collections
  import opened JsValues
  import opened Pdf

  /** The labels of the known field names, in the order the source lists them. */
  const FieldLabels: seq<(string, string)> := [
    ("nome", "Nome"), ("nome_colaborador", "Nome do Colaborador"), ("loja", "Loja"),
    ("nome_loja", "Nome da Loja"), ("rg", "RG"), ("cpf", "CPF"), ("data_emissao", "Data de Emissão"),
    ("data_carta", "Data da Carta"), ("funcao", "Função"), ("cargo", "Cargo"), ("empresa", "Empresa"),
    ("email", "E-mail"), ("telefone", "Telefone"), ("departamento", "Departamento"),
    ("data_admissao", "Data de Admissão"), ("salario", "Salário"), ("endereco", "Endereço"),
    ("cidade", "Cidade"), ("estado", "Estado"), ("cep", "CEP"),
    ("contato_emergencia", "Contato de Emergência"), ("telefone_emergencia", "Telefone de Emergência")]

  /** `table[key] || key`. */
  function LabelFrom(table: seq<(string, string)>, key: string): string {
    match Lookup(table, key)
    case Some(text) => if text != "" then text else key
    case None => key
  }

  /** `fieldLabels[key] || key`. */
  function Label(key: string): string {
    LabelFrom(FieldLabels, key)
  }

  /** In a table without empty labels, a listed key gets its label and any other key is shown as is. */
  lemma LabelFromTable(table: seq<(string, string)>, key: string)
    requires forall i :: 0 <= i < |table| ==> table[i].1 != ""
    ensures (forall i :: 0 <= i < |table| ==> table[i].0 != key) ==> LabelFrom(table, key) == key
    ensures (exists i :: 0 <= i < |table| && table[i].0 == key) ==>
              exists i :: 0 <= i < |table| && table[i] == (key, LabelFrom(table, key))
  {
  }

  /** None of the labels of the table is empty. */
  lemma FieldLabelsLabelled()
    ensures forall i :: 0 <= i < |FieldLabels| ==> FieldLabels[i].1 != ""
  {
  }

  /** A known field name is shown with its label from the table; any other name as it is. */
  lemma LabelOfKey(key: string)
    ensures (forall i :: 0 <= i < |FieldLabels| ==> FieldLabels[i].0 != key) ==> Label(key) == key
    ensures (exists i :: 0 <= i < |FieldLabels| && FieldLabels[i].0 == key) ==>
              exists i :: 0 <= i < |FieldLabels| && FieldLabels[i] == (key, Label(key))
  {
    FieldLabelsLabelled();
    LabelFromTable(FieldLabels, key);
  }

  /** One entry of the document's `data`. */
  datatype Entry = Entry(key: string, value: Value)

  /** `if (value && value !== '')`: the entries that are printed. */
  predicate Printed(en: Entry) {
    Truthy(en.value)
  }

  /**
   * A block drawn for an entry: `label + ':'` in bold at `captionX`, then its value's wrapped
   * lines beside it at `linesX`, both on the line `y` of page `page`.
   */
  datatype Block = Block(page: nat, y: int, captionX: int, caption: string, linesX: int, lines: seq<string>)

  /** The column of the values, 40 mm right of the margin. */
  const ValueColumn: int := Margin + 40

  /** What the builder draws, and the name it saves the file under. */
  datatype DataPdf = DataPdf(
    title: Drawn,
    employeeLine: Drawn,
    blocks: seq<Block>,
    pageCount: nat,
    footer: Drawn,
    fileName: string)

  /** Where the first block goes on the first page: below the title, the name and the divider. */
  const FirstBlockTop: int := PageTop + 10 + 15 + 10

  /** The place of block `next` given the block before it, `7 * lines` mm higher. */
  predicate FollowsBlock(prev: Block, next: Block, pageHeight: int) {
    (next.page, next.y) == NextPlace(prev.page, prev.y + 7 * |prev.lines|, pageHeight)
  }

  /** The page and cursor after the blocks: below the last one, or below the header. */
  function Cursor(blocks: seq<Block>): (nat, int) {
    if blocks == [] then (1, FirstBlockTop)
    else (blocks[|blocks| - 1].page, blocks[|blocks| - 1].y + 7 * |blocks[|blocks| - 1].lines|)
  }

  /** Each block is where the cursor after the blocks before it takes it. */
  predicate LaidOut(blocks: seq<Block>, pageHeight: int) {
    blocks == []
    || (var init := blocks[..|blocks| - 1];
        var last := blocks[|blocks| - 1];
        LaidOut(init, pageHeight)
        && (last.page, last.y) == NextPlace(Cursor(init).0, Cursor(init).1, pageHeight))
  }

  /**
   * Laid-out blocks go one below the other: the first below the header (or at the top of the
   * second page when that is already past the bottom), each later one below the lines of the
   * one before it or at the top of a new page; on a page at least 50 mm high none starts below
   * `pageHeight - 30`.
   */
  lemma {:induction false} LaidOutPlaces(blocks: seq<Block>, pageHeight: int)
    requires LaidOut(blocks, pageHeight)
    ensures |blocks| > 0 ==> (blocks[0].page, blocks[0].y) == NextPlace(1, FirstBlockTop, pageHeight)
    ensures forall k :: 0 < k < |blocks| ==> FollowsBlock(blocks[k - 1], blocks[k], pageHeight)
    ensures pageHeight >= 50 ==> forall k :: 0 <= k < |blocks| ==> PageTop <= blocks[k].y <= pageHeight - 30
  {
    if blocks != [] {
      var init := blocks[..|blocks| - 1];
      LaidOutPlaces(init, pageHeight);
      assert forall k :: 0 <= k < |init| ==> init[k] == blocks[k];
    }
  }

  /**
   * Drawing one block at the cursor: a new page first when the cursor is past the bottom,
   * then the cursor moves down 7 mm per line.
   */
  method PlaceBlock(blocks: seq<Block>, page: nat, y: int, caption: string, lines: seq<string>,
                    pageHeight: int)
    returns (blocks': seq<Block>, page': nat, y': int)
    requires LaidOut(blocks, pageHeight) && (page, y) == Cursor(blocks)
    ensures blocks' == blocks + [Block(NextPlace(page, y, pageHeight).0, NextPlace(page, y, pageHeight).1,
                                       Margin, caption, ValueColumn, lines)]
    ensures LaidOut(blocks', pageHeight) && (page', y') == Cursor(blocks')
  {
    page', y' := page, y;
    if PastBottom(y', pageHeight) {
      page' := page' + 1;
      y' := PageTop;
    }
    var block := Block(page', y', Margin, caption, ValueColumn, lines);
    blocks' := blocks + [block];
    assert blocks'[..|blocks'| - 1] == blocks && blocks'[|blocks'| - 1] == block;
    y' := y' + 7 * |lines|;
  }

  /**
   * The `forEach` over the entries of `data`: each printed entry is drawn where the page
   * cursor is, after a page break if the cursor is past the bottom, and the cursor moves
   * down 7 mm per line of its value. Returns the blocks and the page the cursor ends on.
   */
  method LayOutBlocks(entries: seq<Entry>, wrap: Value -> seq<string>, pageHeight: int)
    returns (blocks: seq<Block>, lastPage: nat)
    // One block per printed entry, in order, labelled and wrapped; falsy values get none.
    ensures |blocks| == |Filter(entries, Printed)|
    ensures forall k :: 0 <= k < |blocks| ==>
              blocks[k].caption == Label(Filter(entries, Printed)[k].key) + ":"
              && blocks[k].lines == wrap(Filter(entries, Printed)[k].value)
              && blocks[k].captionX == Margin && blocks[k].linesX == ValueColumn
    ensures LaidOut(blocks, pageHeight)
    ensures lastPage == Cursor(blocks).0
  {
    var y := FirstBlockTop;
    lastPage := 1;
    blocks := [];
    ghost var printed: seq<Entry> := [];
    for k := 0 to |entries|
      invariant printed == Filter(entries[..k], Printed)
      invariant |blocks| == |printed|
      invariant forall j :: 0 <= j < |blocks| ==>
                  blocks[j].caption == Label(printed[j].key) + ":" && blocks[j].lines == wrap(printed[j].value)
                  && blocks[j].captionX == Margin && blocks[j].linesX == ValueColumn
      invariant LaidOut(blocks, pageHeight)
      invariant (lastPage, y) == Cursor(blocks)
    {
      assert entries[..k + 1] == entries[..k] + [entries[k]];
      FilterSnoc(entries[..k], entries[k], Printed);
      var en := entries[k];
      if Truthy(en.value) {
        blocks, lastPage, y := PlaceBlock(blocks, lastPage, y, Label(en.key) + ":", wrap(en.value), pageHeight);
        printed := printed + [en];
      }
    }
    assert entries[..|entries|] == entries;
  }

  /**
   * The document whose `data` lists `entries`; `wrap` is `splitTextToSize(String(value), …)`,
   * `pageHeight` the page's height (`A4Height` for `new jsPDF()`), `date` and `time` the
   * creation time in pt-BR.
   */
  method Generate(employeeName: string, templateName: string, entries: seq<Entry>,
                  wrap: Value -> seq<string>, pageHeight: int, date: string, time: string)
    returns (pdf: DataPdf)
    ensures pdf.title == Drawn(1, Margin, PageTop, templateName)
    ensures pdf.employeeLine == Drawn(1, Margin, PageTop + 10, "Funcionário: " + employeeName)
    ensures |pdf.blocks| == |Filter(entries, Printed)|
    ensures forall k :: 0 <= k < |pdf.blocks| ==>
              pdf.blocks[k].caption == Label(Filter(entries, Printed)[k].key) + ":"
              && pdf.blocks[k].lines == wrap(Filter(entries, Printed)[k].value)
              && pdf.blocks[k].captionX == Margin && pdf.blocks[k].linesX == ValueColumn
    ensures |pdf.blocks| > 0 ==> (pdf.blocks[0].page, pdf.blocks[0].y) == NextPlace(1, FirstBlockTop, pageHeight)
    ensures forall k :: 0 < k < |pdf.blocks| ==> FollowsBlock(pdf.blocks[k - 1], pdf.blocks[k], pageHeight)
    ensures pageHeight >= 50 ==> forall k :: 0 <= k < |pdf.blocks| ==> PageTop <= pdf.blocks[k].y <= pageHeight - 30
    ensures pdf.pageCount == if pdf.blocks == [] then 1 else pdf.blocks[|pdf.blocks| - 1].page
    // A single footer, on the last page, at `pageHeight - 20`.
    ensures pdf.footer == Drawn(pdf.pageCount, Margin, pageHeight - 20, "Documento gerado em " + date + " às " + time)
    ensures pdf.fileName == DownloadName(employeeName, templateName)
  {
    var y := PageTop;
    var title := Drawn(1, Margin, y, templateName);
    y := y + 10;
    var employeeLine := Drawn(1, Margin, y, "Funcionário: " + employeeName);
    y := y + 15;
    y := y + 10;
    var blocks, page := LayOutBlocks(entries, wrap, pageHeight);
    LaidOutPlaces(blocks, pageHeight);
    y := pageHeight - 20;
    var footer := Drawn(page, Margin, y, "Documento gerado em " + date + " às " + time);
    pdf := DataPdf(title, employeeLine, blocks, page, footer, DownloadName(employeeName, templateName));
  }
}
