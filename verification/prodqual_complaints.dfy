/**
  The complaint keyword table of dashboard-prodqual.py and its
  `categorize_complaint`, whose fallback label is "Other".
*/
module ProdQualComplaints {
  import opened Optional
  import opened Text
  import opened Classifier

  const Fallback: string := "Other"

  const LateDelivery: Category :=
    Category("Late Delivery", ["atras", "demor", "prazo", "lento", "extravia", "nao chegou"])
  const NotReceived: Category :=
    Category("Product Not Received", ["nao recebi", "nao entregue", "nunca chegou", "consta entregue", "caixa vazia"])
  const Defective: Category :=
    Category("Bad Product Quality / Defective", ["quebra", "defeit", "nao funciona", "estraga", "avaria", "falso", "acabamento", "desfiando", "queimou", "rasgado"])
  /** As written: the colour stem "cor" also occurs in "correio" (the postal carrier). */
  const WrongItemAsWritten: Category :=
    Category("Wrong Item Sent", ["diferente", "errado", "outro", "modelo", "cor", "trocado", "versão", "estampa"])
  /** The same category with the colour stem written "cor ", as in dashboard-submit.py. */
  const WrongItem: Category :=
    Category("Wrong Item Sent", ["diferente", "errado", "outro", "modelo", "cor ", "trocado", "versão", "estampa"])
  const MissingItems: Category :=
    Category("Missing Items / Partial Delivery", ["falta", "incompleto", "apenas", "só", "parte", "unidade", "kit", "parcial", "quantidade"])
  const Refund: Category :=
    Category("Return & Refund Issues", ["devolv", "troca", "dinheiro", "volta", "cancel", "reembolso", "estorno"])
  const CustomerService: Category :=
    Category("Poor Customer Service", ["vendedor", "loja", "atendimento", "contato", "resposta", "ninguem", "retorno", "pós venda", "soluçao"])
  const Carrier: Category :=
    Category("Problems with Carrier / Shipping", ["correio", "frete", "transport", "carteiro", "entrega"])

  /** `complaint_keywords` as written, in declared order. */
  const TableAsWritten: seq<Category> :=
    [LateDelivery, NotReceived, Defective, WrongItemAsWritten, MissingItems, Refund, CustomerService, Carrier]

  /** `complaint_keywords` with the colour stem corrected. */
  const Table: seq<Category> :=
    [LateDelivery, NotReceived, Defective, WrongItem, MissingItems, Refund, CustomerService, Carrier]

  /** Both tables are well formed and do not use the fallback label as a category name. */
  lemma TablesWellFormed()
    ensures WellFormed(Table) && WellFormed(TableAsWritten)
    ensures forall i :: 0 <= i < |Table| ==> Table[i].name != Fallback && TableAsWritten[i].name != Fallback
  {
  }

  /**
    `categorize_complaint` on the corrected table: "Other" exactly for a
    missing comment or one with no keyword, and otherwise the winning
    category.
  */
  function CategorizeComplaint(comment: Option<string>): (cat: string)
    ensures cat == Fallback <==> comment.None? || NoMatch(Table, Lower(comment.value))
    ensures cat != Fallback ==> exists w :: Winner(Table, Lower(comment.value), w) && cat == Table[w].name
  {
    TablesWellFormed();
    FallbackIffNoMatch(Table, Fallback, comment);
    Categorize(Table, Fallback, comment)
  }

  /** `categorize_complaint` exactly as written. */
  function CategorizeComplaintAsWritten(comment: Option<string>): (cat: string)
    ensures cat == Fallback <==> comment.None? || NoMatch(TableAsWritten, Lower(comment.value))
    ensures cat != Fallback ==> exists w :: Winner(TableAsWritten, Lower(comment.value), w) && cat == TableAsWritten[w].name
  {
    TablesWellFormed();
    FallbackIffNoMatch(TableAsWritten, Fallback, comment);
    Categorize(TableAsWritten, Fallback, comment)
  }

  /**
    As written, "Wrong Item Sent" wins when the three categories declared
    before it score nothing and no category after it scores more.
  */
  lemma WrongItemWinsAsWritten(text: string)
    requires Score(text, LateDelivery.keywords) == 0
    requires Score(text, NotReceived.keywords) == 0
    requires Score(text, Defective.keywords) == 0
    requires Score(text, WrongItemAsWritten.keywords) > 0
    requires Score(text, MissingItems.keywords) <= Score(text, WrongItemAsWritten.keywords)
    requires Score(text, Refund.keywords) <= Score(text, WrongItemAsWritten.keywords)
    requires Score(text, CustomerService.keywords) <= Score(text, WrongItemAsWritten.keywords)
    requires Score(text, Carrier.keywords) <= Score(text, WrongItemAsWritten.keywords)
    ensures Winner(TableAsWritten, text, 3)
  {
  }

  /** As written, a comment on which "Wrong Item Sent" wins is labelled with it. */
  lemma WrongItemChosenAsWritten(s: string)
    requires Score(Lower(s), LateDelivery.keywords) == 0
    requires Score(Lower(s), NotReceived.keywords) == 0
    requires Score(Lower(s), Defective.keywords) == 0
    requires Score(Lower(s), WrongItemAsWritten.keywords) > 0
    requires Score(Lower(s), MissingItems.keywords) <= Score(Lower(s), WrongItemAsWritten.keywords)
    requires Score(Lower(s), Refund.keywords) <= Score(Lower(s), WrongItemAsWritten.keywords)
    requires Score(Lower(s), CustomerService.keywords) <= Score(Lower(s), WrongItemAsWritten.keywords)
    requires Score(Lower(s), Carrier.keywords) <= Score(Lower(s), WrongItemAsWritten.keywords)
    ensures CategorizeComplaintAsWritten(Some(s)) == WrongItemAsWritten.name
  {
    WrongItemWinsAsWritten(Lower(s));
    TablesWellFormed();
    WinnerIsChosen(TableAsWritten, Fallback, s, 3);
  }

  /** The carrier category, declared last, wins when it alone scores. */
  lemma CarrierWins(text: string)
    requires Score(text, LateDelivery.keywords) == 0
    requires Score(text, NotReceived.keywords) == 0
    requires Score(text, Defective.keywords) == 0
    requires Score(text, WrongItem.keywords) == 0
    requires Score(text, MissingItems.keywords) == 0
    requires Score(text, Refund.keywords) == 0
    requires Score(text, CustomerService.keywords) == 0
    requires Score(text, Carrier.keywords) > 0
    ensures Winner(Table, text, 7)
  {
  }

  /** A comment on which only the carrier category scores is labelled with it. */
  lemma CarrierChosen(s: string)
    requires Score(Lower(s), LateDelivery.keywords) == 0
    requires Score(Lower(s), NotReceived.keywords) == 0
    requires Score(Lower(s), Defective.keywords) == 0
    requires Score(Lower(s), WrongItem.keywords) == 0
    requires Score(Lower(s), MissingItems.keywords) == 0
    requires Score(Lower(s), Refund.keywords) == 0
    requires Score(Lower(s), CustomerService.keywords) == 0
    requires Score(Lower(s), Carrier.keywords) > 0
    ensures CategorizeComplaint(Some(s)) == Carrier.name
  {
    CarrierWins(Lower(s));
    TablesWellFormed();
    WinnerIsChosen(Table, Fallback, s, 7);
  }

  // ---------------------------------------------------------------------------
  // "correio" (the postal carrier) and the colour stem "cor"
  // ---------------------------------------------------------------------------

  lemma CorreioMissesDelivery()
    ensures Score("correio", LateDelivery.keywords) == 0
    ensures Score("correio", NotReceived.keywords) == 0
  {
    ScoreZeroByMissingCharacters("correio", LateDelivery.keywords, "adplaa");
    ScoreZeroByMissingCharacters("correio", NotReceived.keywords, "nnnna");
  }

  lemma CorreioMissesDefective()
    ensures Score("correio", Defective.keywords) == 0
  {
    ScoreZeroByMissingCharacters("correio", Defective.keywords, "qdnsafadqs");
  }

  lemma CorreioHitsColourAsWritten()
    ensures Score("correio", WrongItemAsWritten.keywords) == 1
  {
    ScoreOfSingleMatch("correio", WrongItemAsWritten.keywords, 4);
  }

  lemma CorreioMissesColour()
    ensures Score("correio", WrongItem.keywords) == 0
  {
    ScoreZeroByMissingCharacters("correio", WrongItem.keywords, "daum tvs");
  }

  lemma CorreioMissesMissingItems()
    ensures Score("correio", MissingItems.keywords) == 0
  {
    ScoreZeroByMissingCharacters("correio", MissingItems.keywords, "fnasaukaq");
  }

  lemma CorreioMissesService()
    ensures Score("correio", Refund.keywords) == 0
    ensures Score("correio", CustomerService.keywords) == 0
  {
    ScoreZeroByMissingCharacters("correio", Refund.keywords, "dtdvams");
    ScoreZeroByMissingCharacters("correio", CustomerService.keywords, "vlansntps");
  }

  lemma CorreioHitsCarrier()
    ensures Score("correio", Carrier.keywords) == 1
  {
    ScoreOfSingleMatch("correio", Carrier.keywords, 0);
  }

  /**
    As written, a comment reading "correio", in any case, scores 1 for the
    carrier category and 1 for "Wrong Item Sent" (through "cor"), and the
    tie goes to "Wrong Item Sent", declared first.
  */
  lemma CorreioIsWrongItemAsWritten(s: string)
    requires Lower(s) == "correio"
    ensures Score(Lower(s), Carrier.keywords) == 1
    ensures CategorizeComplaintAsWritten(Some(s)) == "Wrong Item Sent"
  {
    CorreioMissesDelivery();
    CorreioMissesDefective();
    CorreioHitsColourAsWritten();
    CorreioMissesMissingItems();
    CorreioMissesService();
    CorreioHitsCarrier();
    WrongItemChosenAsWritten(s);
  }

  /** With the colour stem written "cor ", the same comment goes to the carrier category. */
  lemma CorreioIsCarrier(s: string)
    requires Lower(s) == "correio"
    ensures CategorizeComplaint(Some(s)) == "Problems with Carrier / Shipping"
  {
    CorreioMissesDelivery();
    CorreioMissesDefective();
    CorreioMissesColour();
    CorreioMissesMissingItems();
    CorreioMissesService();
    CorreioHitsCarrier();
    CarrierChosen(s);
  }
}
