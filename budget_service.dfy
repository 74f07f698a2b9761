/**
 * The free-text transaction parser: "<amount> <category> [description...]" is
 * checked for shape, then amount, then category, and on success becomes exactly
 * one stored transaction.
 */
module Budget {
  import opened Wrappers
  import opened Models
  import opened Text
  import opened Store

  /** The description stored when the message has only an amount and a category. */
  const NoDescription: string := "Без описания"

  /** What a message says before the category is looked up. */
  datatype Draft = Draft(amount: real, categoryName: string, description: string)

  /** The two failures detected without the store: too few pieces, or an amount that does not parse. */
  datatype ParseError = MalformedInput | InvalidAmount

  /**
   * The store-free steps of ProcessTransactionMessage, in the source's order:
   * split on ' ' dropping empty pieces, demand two pieces, parse the first as
   * an amount; the second piece is the category name and the rest, joined by
   * single spaces, the description.
   */
  function ParseMessage(text: string): (r: Result<Draft, ParseError>)
    ensures r == Err(MalformedInput) <==> |Split(text, ' ')| < 2
    ensures r == Err(InvalidAmount) <==> |Split(text, ' ')| >= 2 && ParseDecimal(Split(text, ' ')[0]).None?
    ensures r.Ok? ==> r.value.categoryName != [] && ' ' !in r.value.categoryName
    ensures r.Ok? ==> Some(r.value.amount) == ParseDecimal(Split(text, ' ')[0])
  {
    var parts := Split(text, ' ');
    if |parts| < 2 then Err(MalformedInput)
    else
      match ParseDecimal(parts[0])
      case None => Err(InvalidAmount)
      case Some(amount) =>
        Ok(Draft(amount, parts[1], if |parts| > 2 then Join(parts[2..], ' ') else NoDescription))
  }

  /**
   * A message written as an amount, a category name and description words,
   * separated by spaces, parses to exactly those parts; with no words the
   * description is the placeholder.
   */
  lemma ParseComposed(amountText: string, amount: real, category: string, words: seq<string>)
    requires ParseDecimal(amountText) == Some(amount) && ' ' !in amountText
    requires category != [] && ' ' !in category
    requires forall i :: 0 <= i < |words| ==> words[i] != [] && ' ' !in words[i]
    ensures ParseMessage(Join([amountText, category] + words, ' '))
         == Ok(Draft(amount, category, if words == [] then NoDescription else Join(words, ' ')))
  {
    var parts := [amountText, category] + words;
    PiecesOfMessage(amountText, category, words);
    SplitJoin(parts, ' ');
    ParseOfPieces(Join(parts, ' '), parts);
    assert parts[2..] == words;
  }

  /** The pieces of a composed message are non-empty and free of spaces. */
  lemma PiecesOfMessage(amountText: string, category: string, words: seq<string>)
    requires amountText != [] && ' ' !in amountText
    requires category != [] && ' ' !in category
    requires forall i :: 0 <= i < |words| ==> words[i] != [] && ' ' !in words[i]
    ensures var parts := [amountText, category] + words;
            forall i :: 0 <= i < |parts| ==> parts[i] != [] && ' ' !in parts[i]
  {
    var parts := [amountText, category] + words;
    forall i | 0 <= i < |parts|
      ensures parts[i] != [] && ' ' !in parts[i]
    {
      if i >= 2 {
        assert parts[i] == words[i - 2];
      }
    }
  }

  /** ParseMessage read off the pieces of the split. */
  lemma ParseOfPieces(text: string, parts: seq<string>)
    requires Split(text, ' ') == parts && |parts| >= 2 && ParseDecimal(parts[0]).Some?
    ensures ParseMessage(text)
         == Ok(Draft(ParseDecimal(parts[0]).value, parts[1], if |parts| > 2 then Join(parts[2..], ' ') else NoDescription))
  {
  }

  /** A message is read off its space-separated pieces alone. */
  lemma ParseDependsOnSplit(a: string, b: string)
    requires Split(a, ' ') == Split(b, ' ')
    ensures ParseMessage(a) == ParseMessage(b)
  {
  }

  /**
   * Extra spaces change nothing: before the amount, between the pieces, and
   * after the last one; a description's words end up one space apart.
   */
  lemma SpacingIgnored(lead: nat, parts: seq<string>, gaps: seq<nat>)
    requires forall i :: 0 <= i < |parts| ==> parts[i] != [] && ' ' !in parts[i]
    requires |gaps| == |parts| && forall i :: 0 <= i < |parts| - 1 ==> gaps[i] >= 1
    ensures ParseMessage(Run(lead, ' ') + Spaced(parts, gaps, ' ')) == ParseMessage(Join(parts, ' '))
  {
    SplitSpaced(lead, parts, gaps, ' ');
    SplitJoin(parts, ' ');
    ParseDependsOnSplit(Run(lead, ' ') + Spaced(parts, gaps, ' '), Join(parts, ' '));
  }

  /** There is no positivity check: any integer amount, negative ones included, is accepted as written. */
  lemma AnyIntegerAmountAccepted(amount: int, category: string)
    requires category != [] && ' ' !in category
    ensures ParseMessage(IntToString(amount) + " " + category) == Ok(Draft(amount as real, category, NoDescription))
  {
    DecimalOfInt(amount);
    ParseComposed(IntToString(amount), amount as real, category, []);
    assert Join([IntToString(amount), category] + [], ' ') == IntToString(amount) + " " + category;
  }

  /** Fewer than two pieces is a malformed message, whatever else it holds. */
  lemma OnePieceIsMalformed(piece: string, pad: nat)
    requires ' ' !in piece
    ensures ParseMessage(piece + seq(pad, _ => ' ')) == Err(MalformedInput)
  {
    var s := piece + seq(pad, _ => ' ');
    if piece == [] {
      SplitOfSpaces(pad);
      assert s == seq(pad, _ => ' ');
    } else {
      WordOfConcat(piece, seq(pad, _ => ' '), ' ');
      assert pad > 0 ==> Word(seq(pad, _ => ' '), ' ') == [];
      if pad == 0 {
        assert s == piece + [];
        WordOfConcat(piece, [], ' ');
      }
      assert Word(s, ' ') == piece;
      assert s[|piece|..] == seq(pad, _ => ' ');
      SplitOfSpaces(pad);
    }
  }

  lemma {:induction false} SplitOfSpaces(n: nat)
    ensures Split(seq(n, _ => ' '), ' ') == []
  {
    if n > 0 {
      assert seq(n, _ => ' ')[1..] == seq(n - 1, _ => ' ');
      SplitOfSpaces(n - 1);
    }
  }

  /** The reply of ProcessTransactionMessage; only `Added` is a success. */
  datatype TransactionReply =
    | Rejected(error: ParseError)
    | CategoryNotFound(name: string)
    | Added(amount: real, categoryName: string)

  /**
   * What a transaction message does to the Transactions table, from
   * `transactions` to `transactions'`: the first failing check decides the
   * reply and nothing is stored; otherwise exactly one row is appended with
   * the parsed amount, the found category's id, the description and now.
   */
  predicate TransactionOutcome(categories: seq<CategoryRow>, transactions: seq<TransactionRow>,
                               transactions': seq<TransactionRow>, text: string, now: DateTime, reply: TransactionReply)
  {
    && (ParseMessage(text).Err? ==>
          reply == Rejected(ParseMessage(text).error) && transactions' == transactions)
    && (ParseMessage(text).Ok? && !HasName(categories, ParseMessage(text).value.categoryName) ==>
          reply == CategoryNotFound(ParseMessage(text).value.categoryName) && transactions' == transactions)
    && (ParseMessage(text).Ok? && HasName(categories, ParseMessage(text).value.categoryName) ==>
          var d := ParseMessage(text).value;
          var category := FindByName(categories, d.categoryName).value;
          && reply == Added(d.amount, d.categoryName)
          && |transactions'| == |transactions| + 1
          && transactions' == transactions + [TransactionRow(transactions'[|transactions|].id, d.amount, now, category.id, d.description)])
  }

  /**
   * ProcessTransactionMessage: the first failing check decides the reply and
   * nothing is stored; otherwise exactly one transaction is stored with the
   * parsed amount, the found category's id, the description and the current
   * time. Categories are never created here, and the transaction's type is
   * not assigned.
   */
  method ProcessTransactionMessage(store: BudgetStore, text: string, now: DateTime) returns (reply: TransactionReply)
    requires store.Valid()
    modifies store
    ensures store.Valid() && store.categories == old(store.categories)
    ensures TransactionOutcome(store.categories, old(store.transactions), store.transactions, text, now, reply)
  {
    var parsed := ParseMessage(text);
    if parsed.Err? {
      return Rejected(parsed.error);
    }
    var d := parsed.value;
    var category := store.GetCategoryByName(d.categoryName);
    if category.None? {
      return CategoryNotFound(d.categoryName);
    }
    var transaction := NewTransaction(d.amount, now, category.value.id, d.description);
    var _ := store.AddTransaction(transaction);
    reply := Added(d.amount, d.categoryName);
  }
}
