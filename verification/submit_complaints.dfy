/**
  The complaint keyword table of dashboard-submit.py and its
  `categorize_complaint`, whose fallback label is "Lainnya".
*/
module SubmitComplaints {
  import opened Optional
  import opened Text
  import opened Classifier

  const Fallback: string := "Lainnya"

  const LateDelivery: Category :=
    Category("Late Delivery", ["atras", "demor", "prazo", "lento", "extravia", "nao chegou"])
  const NotReceived: Category :=
    Category("Product Not Received", ["não recebi", "nao recebi", "não entregue", "nao entregue", "nunca chegou", "consta entregue", "caixa vazia"])
  /** As written: "quantitade" is a misspelling of "quantidade" (quantity). */
  const MissingItemsAsWritten: Category :=
    Category("Missing Items / Partial Delivery", ["falt", "incompleto", "apenas", "só", "parte", "unidade", "kit", "parcial", "quantitade", "somen"])
  /** The same category with the word for quantity spelt correctly, as in dashboard-prodqual.py. */
  const MissingItems: Category :=
    Category("Missing Items / Partial Delivery", ["falt", "incompleto", "apenas", "só", "parte", "unidade", "kit", "parcial", "quantidade", "somen"])
  const Defective: Category :=
    Category("Bad Product Quality / Defective", ["quebra", "defeit", "qualidade ruim", "funciona", "estraga", "avaria", "falso", "caixa", "rasga", "mancha", "costura", "acabamento", "arranha", "amassad", "solto", "velh"])
  const WrongItem: Category :=
    Category("Wrong Item Sent", ["diferente", "erra", "outro", "modelo", "cor ", "trocado", "marca", "tamanho"])
  const Packaging: Category :=
    Category("Bad Packaging", ["caixa", "embala", "rasgad", "abert", "violad", "frágil", "fragil", "danificad", "pacote"])
  const SellerService: Category :=
    Category("Bad Service / Seller Issues", ["atendimento", "sem resposta", "ninguem responde", "não resolve", "pós venda", "mau vendedor", "sem retorno", "diálogo", "serviço", "servico"])

  /** `complaint_keywords` as written, in declared order. */
  const TableAsWritten: seq<Category> :=
    [LateDelivery, NotReceived, MissingItemsAsWritten, Defective, WrongItem, Packaging, SellerService]

  /** `complaint_keywords` with the misspelt entry corrected. */
  const Table: seq<Category> :=
    [LateDelivery, NotReceived, MissingItems, Defective, WrongItem, Packaging, SellerService]

  /** Both tables are well formed and do not use the fallback label as a category name. */
  lemma TablesWellFormed()
    ensures WellFormed(Table) && WellFormed(TableAsWritten)
    ensures forall i :: 0 <= i < |Table| ==> Table[i].name != Fallback && TableAsWritten[i].name != Fallback
  {
  }

  /**
    `categorize_complaint` on the corrected table: "Lainnya" exactly for a
    missing comment or one with no keyword, and otherwise the winning
    category.
  */
  function CategorizeComplaint(comment: Option<string>): (cat: string)
    ensures cat == Fallback <==> comment.None? || NoMatch(Table, Lower(comment.value))
    ensures cat != Fallback ==> exists w :: Winner(Table, Lower(comment.value), w) && cat == Table[w].name
  {
    TablesWellFormed();
    FallbackIffNoMatch(Table, Fallback, comment);
    Categorize(Table, Fallback, comment)
  }

  /** `categorize_complaint` exactly as written. */
  function CategorizeComplaintAsWritten(comment: Option<string>): (cat: string)
    ensures cat == Fallback <==> comment.None? || NoMatch(TableAsWritten, Lower(comment.value))
    ensures cat != Fallback ==> exists w :: Winner(TableAsWritten, Lower(comment.value), w) && cat == TableAsWritten[w].name
  {
    TablesWellFormed();
    FallbackIffNoMatch(TableAsWritten, Fallback, comment);
    Categorize(TableAsWritten, Fallback, comment)
  }

  /**
    "Bad Product Quality / Defective" wins, with either spelling of the
    missing-items keywords, when the three categories declared before it
    score nothing and no category after it scores more.
  */
  lemma DefectiveWins(text: string)
    requires Score(text, LateDelivery.keywords) == 0
    requires Score(text, NotReceived.keywords) == 0
    requires Score(text, MissingItemsAsWritten.keywords) == 0
    requires Score(text, MissingItems.keywords) == 0
    requires Score(text, Defective.keywords) > 0
    requires Score(text, WrongItem.keywords) <= Score(text, Defective.keywords)
    requires Score(text, Packaging.keywords) <= Score(text, Defective.keywords)
    requires Score(text, SellerService.keywords) <= Score(text, Defective.keywords)
    ensures Winner(TableAsWritten, text, 3)
    ensures Winner(Table, text, 3)
  {
  }

  /** A comment on which "Bad Product Quality / Defective" wins is labelled with it. */
  lemma DefectiveChosen(s: string)
    requires Score(Lower(s), LateDelivery.keywords) == 0
    requires Score(Lower(s), NotReceived.keywords) == 0
    requires Score(Lower(s), MissingItemsAsWritten.keywords) == 0
    requires Score(Lower(s), MissingItems.keywords) == 0
    requires Score(Lower(s), Defective.keywords) > 0
    requires Score(Lower(s), WrongItem.keywords) <= Score(Lower(s), Defective.keywords)
    requires Score(Lower(s), Packaging.keywords) <= Score(Lower(s), Defective.keywords)
    requires Score(Lower(s), SellerService.keywords) <= Score(Lower(s), Defective.keywords)
    ensures CategorizeComplaintAsWritten(Some(s)) == Defective.name
    ensures CategorizeComplaint(Some(s)) == Defective.name
  {
    DefectiveWins(Lower(s));
    TablesWellFormed();
    WinnerIsChosen(TableAsWritten, Fallback, s, 3);
    WinnerIsChosen(Table, Fallback, s, 3);
  }

  /**
    "Missing Items / Partial Delivery" wins when the two categories declared
    before it score nothing and no category after it scores more.
  */
  lemma MissingItemsWins(text: string)
    requires Score(text, LateDelivery.keywords) == 0
    requires Score(text, NotReceived.keywords) == 0
    requires Score(text, MissingItems.keywords) > 0
    requires Score(text, Defective.keywords) <= Score(text, MissingItems.keywords)
    requires Score(text, WrongItem.keywords) <= Score(text, MissingItems.keywords)
    requires Score(text, Packaging.keywords) <= Score(text, MissingItems.keywords)
    requires Score(text, SellerService.keywords) <= Score(text, MissingItems.keywords)
    ensures Winner(Table, text, 2)
  {
  }

  /** A comment on which "Missing Items / Partial Delivery" wins is labelled with it. */
  lemma MissingItemsChosen(s: string)
    requires Score(Lower(s), LateDelivery.keywords) == 0
    requires Score(Lower(s), NotReceived.keywords) == 0
    requires Score(Lower(s), MissingItems.keywords) > 0
    requires Score(Lower(s), Defective.keywords) <= Score(Lower(s), MissingItems.keywords)
    requires Score(Lower(s), WrongItem.keywords) <= Score(Lower(s), MissingItems.keywords)
    requires Score(Lower(s), Packaging.keywords) <= Score(Lower(s), MissingItems.keywords)
    requires Score(Lower(s), SellerService.keywords) <= Score(Lower(s), MissingItems.keywords)
    ensures CategorizeComplaint(Some(s)) == MissingItems.name
  {
    MissingItemsWins(Lower(s));
    TablesWellFormed();
    WinnerIsChosen(Table, Fallback, s, 2);
  }

  /** As written, a text on which every category scores 0 matches no keyword. */
  lemma NothingScoresAsWritten(text: string)
    requires Score(text, LateDelivery.keywords) == 0
    requires Score(text, NotReceived.keywords) == 0
    requires Score(text, MissingItemsAsWritten.keywords) == 0
    requires Score(text, Defective.keywords) == 0
    requires Score(text, WrongItem.keywords) == 0
    requires Score(text, Packaging.keywords) == 0
    requires Score(text, SellerService.keywords) == 0
    ensures NoMatch(TableAsWritten, text)
  {
    NoMatchIffAllZero(TableAsWritten, text);
  }

  // ---------------------------------------------------------------------------
  // "caixa" (box) is a keyword of two categories
  // ---------------------------------------------------------------------------

  lemma CaixaMisses()
    ensures Score("caixa", LateDelivery.keywords) == 0
    ensures Score("caixa", NotReceived.keywords) == 0
    ensures Score("caixa", MissingItemsAsWritten.keywords) == 0
    ensures Score("caixa", MissingItems.keywords) == 0
  {
    ScoreZeroByMissingCharacters("caixa", LateDelivery.keywords, "tdpleo");
    ScoreZeroByMissingCharacters("caixa", NotReceived.keywords, "nnnnnnv");
    ScoreZeroByMissingCharacters("caixa", MissingItemsAsWritten.keywords, "fnpspukpqs");
    ScoreZeroByMissingCharacters("caixa", MissingItems.keywords, "fnpspukpqs");
  }

  lemma CaixaMissesMore()
    ensures Score("caixa", WrongItem.keywords) == 0
    ensures Score("caixa", SellerService.keywords) == 0
  {
    ScoreZeroByMissingCharacters("caixa", WrongItem.keywords, "deomotmt");
    ScoreZeroByMissingCharacters("caixa", SellerService.keywords, "tsnnpmsdss");
  }

  lemma CaixaHits()
    ensures Score("caixa", Defective.keywords) == 1
    ensures Score("caixa", Packaging.keywords) == 1
  {
    ScoreOfSingleMatch("caixa", Defective.keywords, 7);
    ScoreOfSingleMatch("caixa", Packaging.keywords, 0);
  }

  /**
    A comment reading "caixa", in any case, scores 1 for both
    "Bad Product Quality / Defective" and "Bad Packaging"; the tie goes to
    the first declared of the two, with the table as declared and with the
    corrected one alike.
  */
  lemma CaixaTie(s: string)
    requires Lower(s) == "caixa"
    ensures Score(Lower(s), Defective.keywords) == Score(Lower(s), Packaging.keywords) == 1
    ensures CategorizeComplaintAsWritten(Some(s)) == "Bad Product Quality / Defective"
    ensures CategorizeComplaint(Some(s)) == "Bad Product Quality / Defective"
  {
    CaixaMisses();
    CaixaMissesMore();
    CaixaHits();
    DefectiveChosen(s);
  }

  // ---------------------------------------------------------------------------
  // "quantidade" (quantity) and the misspelt keyword
  // ---------------------------------------------------------------------------

  lemma QuantidadeMissesDelivery()
    ensures Score("quantidade", LateDelivery.keywords) == 0
  {
    ScoreZeroByMissingCharacters("quantidade", LateDelivery.keywords, "rmplxo");
  }

  lemma QuantidadeMissesNotReceived()
    ensures Score("quantidade", NotReceived.keywords) == 0
  {
    ScoreZeroByMissingCharacters("quantidade", NotReceived.keywords, "rrrrccc");
  }

  lemma QuantidadeMissesAsWritten()
    ensures Score("quantidade", MissingItemsAsWritten.keywords) == 0
  {
    ScoreZeroByMissingCharacters("quantidade", MissingItemsAsWritten.keywords, "fcpsp kp s");
  }

  lemma QuantidadeHits()
    ensures Score("quantidade", MissingItems.keywords) == 1
  {
    ScoreOfSingleMatch("quantidade", MissingItems.keywords, 8);
  }

  lemma QuantidadeMissesDefective()
    ensures Score("quantidade", Defective.keywords) == 0
  {
    ScoreZeroByMissingCharacters("quantidade", Defective.keywords, "rflfsvfcrmcmrmsl");
  }

  lemma QuantidadeMissesWrongItem()
    ensures Score("quantidade", WrongItem.keywords) == 0
  {
    ScoreZeroByMissingCharacters("quantidade", WrongItem.keywords, "fromcrmm");
  }

  lemma QuantidadeMissesPackaging()
    ensures Score("quantidade", Packaging.keywords) == 0
  {
    ScoreZeroByMissingCharacters("quantidade", Packaging.keywords, "cmrbvfffp");
  }

  lemma QuantidadeMissesService()
    ensures Score("quantidade", SellerService.keywords) == 0
  {
    ScoreZeroByMissingCharacters("quantidade", SellerService.keywords, "msgspvslss");
  }

  /** As written, a comment reading "quantidade" matches no keyword and gets the fallback label. */
  lemma QuantidadeUnmatchedAsWritten(s: string)
    requires Lower(s) == "quantidade"
    ensures CategorizeComplaintAsWritten(Some(s)) == Fallback
  {
    QuantidadeMissesDelivery();
    QuantidadeMissesNotReceived();
    QuantidadeMissesAsWritten();
    QuantidadeMissesDefective();
    QuantidadeMissesWrongItem();
    QuantidadeMissesPackaging();
    QuantidadeMissesService();
    NothingScoresAsWritten(Lower(s));
  }

  /** With the keyword spelt correctly, the same comment is a partial delivery. */
  lemma QuantidadeIsMissingItems(s: string)
    requires Lower(s) == "quantidade"
    ensures CategorizeComplaint(Some(s)) == "Missing Items / Partial Delivery"
  {
    QuantidadeMissesDelivery();
    QuantidadeMissesNotReceived();
    QuantidadeHits();
    QuantidadeMissesDefective();
    QuantidadeMissesWrongItem();
    QuantidadeMissesPackaging();
    QuantidadeMissesService();
    MissingItemsChosen(s);
  }
}
