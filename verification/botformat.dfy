/** How `message_handler` turns the decoded API response into the one reply it sends:
    the error check, the filtering of meaningful fields and the HTML block (bot.py:69-85). */
module BotFormat {
  import opened Wrappers
  import opened PyStr
  import opened JsonValue

  /** The `parse_mode` a reply is sent with: the client's default, or `'html'`. */
  datatype ParseMode = ClientDefault | Html

  /** A reply sent back to the chat the message came from. */
  datatype Reply = Reply(text: string, mode: ParseMode)

  /** The display label of a key: underscores become spaces, then the result is title-cased. */
  function Label(key: string): string {
    Title(ReplaceChar(key, '_', ' '))
  }

  /** The first line of the information block, naming the number looked up. */
  function Header(phone: string): string {
    "<b>Info for " + phone + ":</b>\n"
  }

  /** The line one meaningful field contributes; the value is printed as it is, unstripped. */
  function FieldLine(key: string, value: Value): string {
    "\n<b>" + Label(key) + ":</b> " + ToStr(value)
  }

  /** The reply when no field is meaningful. */
  function NoDetailsText(phone: string): string {
    "No details found for " + phone + "."
  }

  /** The reply when the response carries a truthy `error` member. */
  function ErrorText(error: Value): string {
    "Error: " + ToStr(error)
  }

  /** The fields that produce a line, in the order of the response. */
  function MeaningfulFields(fields: seq<Field>): seq<Field> {
    if fields == [] then []
    else
      var n := |fields| - 1;
      MeaningfulFields(fields[..n]) + (if Meaningful(fields[n].1) then [fields[n]] else [])
  }

  /** The information block: the header, then the line of each field shown, in order. */
  function InfoText(phone: string, shown: seq<Field>): string {
    if shown == [] then Header(phone)
    else
      var n := |shown| - 1;
      InfoText(phone, shown[..n]) + FieldLine(shown[n].0, shown[n].1)
  }

  /** The value of the `error` member when it is truthy: the response is an error report. */
  function ReportedError(fields: seq<Field>): (r: Option<Value>)
    ensures r.Some? ==> Truthy(r.value) && Get(fields, "error") == r
  {
    match Get(fields, "error")
    case Some(e) => if Truthy(e) then Some(e) else None
    case None => None
  }

  /** The one reply `message_handler` sends for a decoded object `fields` (bot.py:69-85). */
  function FormatReply(phone: string, fields: seq<Field>): Reply {
    match ReportedError(fields)
    case Some(e) => Reply(ErrorText(e), ClientDefault)
    case None =>
      var shown := MeaningfulFields(fields);
      if shown == [] then Reply(NoDetailsText(phone), ClientDefault)
      else Reply(InfoText(phone, shown), Html)
  }

  /** The formatting loop of `message_handler`: it appends one line per meaningful field to the
      header and remembers whether it appended any. */
  method ComposeReply(phone: string, fields: seq<Field>) returns (reply: Reply)
    ensures reply == FormatReply(phone, fields)
  {
    var error := Get(fields, "error");
    if error.Some? && Truthy(error.value) {
      return Reply(ErrorText(error.value), ClientDefault);
    }
    var message := Header(phone);
    var infoFound := false;
    assert fields[..0] == [];
    for i := 0 to |fields|
      invariant message == InfoText(phone, MeaningfulFields(fields[..i]))
      invariant infoFound <==> MeaningfulFields(fields[..i]) != []
    {
      var (key, value) := fields[i];
      ComposeStep(phone, fields, i);
      if Meaningful(value) {
        message := message + FieldLine(key, value);
        infoFound := true;
      }
    }
    assert fields[..|fields|] == fields;
    if !infoFound {
      reply := Reply(NoDetailsText(phone), ClientDefault);
    } else {
      reply := Reply(message, Html);
    }
  }

  /** One turn of the formatting loop: the next field adds its line exactly when it is
      meaningful. */
  lemma ComposeStep(phone: string, fields: seq<Field>, i: nat)
    requires i < |fields|
    ensures var before, after := MeaningfulFields(fields[..i]), MeaningfulFields(fields[..i + 1]);
      && (Meaningful(fields[i].1) ==>
            InfoText(phone, after) == InfoText(phone, before) + FieldLine(fields[i].0, fields[i].1))
      && (!Meaningful(fields[i].1) ==> after == before)
      && (after != [] <==> before != [] || Meaningful(fields[i].1))
  {
    var before := MeaningfulFields(fields[..i]);
    assert fields[..i + 1][..i] == fields[..i];
    if Meaningful(fields[i].1) {
      assert (before + [fields[i]])[..|before|] == before;
    } else {
      assert before + [] == before;
    }
  }

  /** Filtering two runs of fields one after the other. */
  lemma {:induction false} MeaningfulFieldsAppend(a: seq<Field>, b: seq<Field>)
    ensures MeaningfulFields(a + b) == MeaningfulFields(a) + MeaningfulFields(b)
    decreases |b|
  {
    if b == [] {
      assert a + b == a;
    } else {
      var n := |b| - 1;
      assert (a + b)[..|a| + n] == a + b[..n];
      MeaningfulFieldsAppend(a, b[..n]);
    }
  }

  /** The positions of the meaningful fields, in increasing order. */
  function SelectedPositions(fields: seq<Field>): seq<nat> {
    if fields == [] then []
    else
      var n := |fields| - 1;
      SelectedPositions(fields[..n]) + (if Meaningful(fields[n].1) then [n] else [])
  }

  /** `SelectedPositions` lists, in increasing order, exactly the positions of the meaningful
      fields. */
  lemma SelectedPositionsSpec(fields: seq<Field>)
    ensures forall j :: 0 <= j < |SelectedPositions(fields)| ==> SelectedPositions(fields)[j] < |fields|
    ensures forall j :: 0 <= j < |SelectedPositions(fields)| ==>
      Meaningful(fields[SelectedPositions(fields)[j]].1)
    ensures forall j, k :: 0 <= j < k < |SelectedPositions(fields)| ==>
      SelectedPositions(fields)[j] < SelectedPositions(fields)[k]
    ensures forall i :: 0 <= i < |fields| && Meaningful(fields[i].1) ==> i in SelectedPositions(fields)
  {
    SelectedPositionsSound(fields);
    SelectedPositionsComplete(fields);
  }

  /** Every listed position is in range and holds a meaningful field, and the list increases. */
  lemma {:induction false} SelectedPositionsSound(fields: seq<Field>)
    ensures forall j :: 0 <= j < |SelectedPositions(fields)| ==> SelectedPositions(fields)[j] < |fields|
    ensures forall j :: 0 <= j < |SelectedPositions(fields)| ==>
      Meaningful(fields[SelectedPositions(fields)[j]].1)
    ensures forall j, k :: 0 <= j < k < |SelectedPositions(fields)| ==>
      SelectedPositions(fields)[j] < SelectedPositions(fields)[k]
  {
    if fields != [] {
      var n := |fields| - 1;
      var front := fields[..n];
      SelectedPositionsSound(front);
      var before := SelectedPositions(front);
      assert SelectedPositions(fields) == before + if Meaningful(fields[n].1) then [n] else [];
      forall j | 0 <= j < |before| ensures Meaningful(fields[before[j]].1) {
        assert fields[before[j]] == front[before[j]];
      }
    }
  }

  /** Every position holding a meaningful field is listed. */
  lemma {:induction false} SelectedPositionsComplete(fields: seq<Field>)
    ensures forall i :: 0 <= i < |fields| && Meaningful(fields[i].1) ==> i in SelectedPositions(fields)
  {
    if fields != [] {
      var n := |fields| - 1;
      var front := fields[..n];
      SelectedPositionsComplete(front);
      var before := SelectedPositions(front);
      var ix := before + if Meaningful(fields[n].1) then [n] else [];
      assert SelectedPositions(fields) == ix;
      forall i | 0 <= i < |fields| && Meaningful(fields[i].1) ensures i in ix {
        if i < n {
          assert fields[i] == front[i];
          assert i in before;
        } else {
          assert ix[|before|] == n;
        }
      }
    }
  }

  /** The filter keeps exactly the meaningful fields, each once, in the order of the response:
      its `j`-th field is the field at the `j`-th meaningful position. */
  lemma {:induction false} MeaningfulFieldsInOrder(fields: seq<Field>)
    ensures var shown, ix := MeaningfulFields(fields), SelectedPositions(fields);
      |shown| == |ix| && forall j :: 0 <= j < |ix| ==> ix[j] < |fields| && shown[j] == fields[ix[j]]
  {
    if fields != [] {
      var n := |fields| - 1;
      MeaningfulFieldsInOrder(fields[..n]);
    }
  }

  /** A field has a line exactly when it is a field of the response with a meaningful value. */
  lemma {:induction false} MeaningfulFieldsMembers(fields: seq<Field>, f: Field)
    ensures f in MeaningfulFields(fields) <==> f in fields && Meaningful(f.1)
  {
    if fields != [] {
      var n := |fields| - 1;
      MeaningfulFieldsMembers(fields[..n], f);
      assert fields == fields[..n] + [fields[n]];
    }
  }

  /** No field at all is meaningful exactly when the filter keeps nothing. */
  lemma NothingMeaningful(fields: seq<Field>)
    ensures MeaningfulFields(fields) == [] <==>
      forall i :: 0 <= i < |fields| ==> !Meaningful(fields[i].1)
  {
    MeaningfulFieldsInOrder(fields);
    SelectedPositionsSpec(fields);
    var ix := SelectedPositions(fields);
    if ix != [] {
      assert Meaningful(fields[ix[0]].1);
    }
  }

  /** The lines of the given fields, one after the other, first field first. */
  function Lines(shown: seq<Field>): string {
    if shown == [] then "" else FieldLine(shown[0].0, shown[0].1) + Lines(shown[1..])
  }

  lemma {:induction false} LinesSnoc(shown: seq<Field>, f: Field)
    ensures Lines(shown + [f]) == Lines(shown) + FieldLine(f.0, f.1)
  {
    if shown == [] {
      assert shown + [f] == [f] && [f][1..] == [];
    } else {
      assert (shown + [f])[1..] == shown[1..] + [f];
      LinesSnoc(shown[1..], f);
    }
  }

  /** The information block is the header followed by the lines of the fields shown. */
  lemma {:induction false} InfoTextIsHeaderThenLines(phone: string, shown: seq<Field>)
    ensures InfoText(phone, shown) == Header(phone) + Lines(shown)
  {
    if shown != [] {
      var n := |shown| - 1;
      var front, line := shown[..n], FieldLine(shown[n].0, shown[n].1);
      assert Lines(shown) == Lines(front) + line by {
        assert shown == front + [shown[n]];
        LinesSnoc(front, shown[n]);
      }
      assert InfoText(phone, shown) == (Header(phone) + Lines(front)) + line by {
        InfoTextIsHeaderThenLines(phone, front);
      }
      AppendAssociative(Header(phone), Lines(front), line);
    }
  }

  lemma AppendAssociative(a: string, b: string, c: string)
    ensures (a + b) + c == a + (b + c)
  {
  }

  /** No member named `error` holds a truthy value. */
  predicate NoTruthyError(fields: seq<Field>) {
    forall i :: 0 <= i < |fields| && fields[i].0 == "error" ==> !Truthy(fields[i].1)
  }

  /** In a `dict`, the response reports an error exactly when its `error` member is truthy,
      and what it reports is that member's value. */
  lemma ReportedErrorSpec(fields: seq<Field>)
    requires DistinctKeys(fields)
    ensures ReportedError(fields).None? <==> NoTruthyError(fields)
    ensures forall i :: 0 <= i < |fields| && fields[i].0 == "error" && Truthy(fields[i].1) ==>
      ReportedError(fields) == Some(fields[i].1)
  {
    forall i | 0 <= i < |fields| && fields[i].0 == "error"
      ensures ReportedError(fields) == if Truthy(fields[i].1) then Some(fields[i].1) else None
    {
      GetFinds(fields, i);
    }
  }

  /** The three replies and when each is sent: the error report when `error` is truthy, the
      "no details" text exactly when `error` is not truthy and no field is meaningful (the empty
      object included), and the HTML block exactly when `error` is not truthy and some field is
      meaningful. */
  lemma FormatReplyCases(phone: string, fields: seq<Field>)
    requires DistinctKeys(fields)
    ensures forall i :: 0 <= i < |fields| && fields[i].0 == "error" && Truthy(fields[i].1) ==>
      FormatReply(phone, fields) == Reply(ErrorText(fields[i].1), ClientDefault)
    ensures FormatReply(phone, fields) == Reply(NoDetailsText(phone), ClientDefault) <==>
      NoTruthyError(fields) && forall i :: 0 <= i < |fields| ==> !Meaningful(fields[i].1)
    ensures FormatReply(phone, fields).mode == Html <==>
      NoTruthyError(fields) && exists i :: 0 <= i < |fields| && Meaningful(fields[i].1)
  {
    ReportedErrorSpec(fields);
    NothingMeaningful(fields);
    var r := FormatReply(phone, fields);
    if ReportedError(fields).Some? {
      assert r.text[0] == 'E';
      assert NoDetailsText(phone)[0] == 'N';
    }
  }

  /** The reply never carries a line for the `error` member: when `error` is truthy no lines are
      built, and when it is falsy it is not meaningful. */
  lemma ErrorMemberNeverALine(phone: string, fields: seq<Field>)
    requires DistinctKeys(fields)
    ensures FormatReply(phone, fields).mode == Html ==>
      forall f :: f in MeaningfulFields(fields) ==> f.0 != "error"
  {
    if FormatReply(phone, fields).mode == Html {
      forall f | f in MeaningfulFields(fields) ensures f.0 != "error" {
        MeaningfulFieldsMembers(fields, f);
        if f.0 == "error" {
          var i :| 0 <= i < |fields| && fields[i] == f;
          GetFinds(fields, i);
          assert false;
        }
      }
    }
  }

  /** `Label` keeps the length of the key, puts a space exactly where the key had an underscore
      or a space, and leaves no underscore. */
  lemma LabelSpec(key: string)
    ensures |Label(key)| == |key|
    ensures forall i :: 0 <= i < |key| ==> (Label(key)[i] == ' ' <==> key[i] == '_' || key[i] == ' ')
    ensures '_' !in Label(key)
  {
    var spaced := ReplaceChar(key, '_', ' ');
    TitleSpec(spaced);
    forall i | 0 <= i < |key| ensures Label(key)[i] != '_' {
      assert Label(key)[i] == TitleCaseAt(spaced, i);
    }
  }

  /** Labelling a label changes nothing. */
  lemma LabelIdempotent(key: string)
    ensures Label(Label(key)) == Label(key)
  {
    LabelSpec(key);
    var l := Label(key);
    assert ReplaceChar(l, '_', ' ') == l;
    TitleIdempotent(ReplaceChar(key, '_', ' '));
  }

  /** A worked lookup: `country` holds the placeholder `NA`, so only the name and the carrier
      get a line, in the order of the response. */
  lemma NamedCarrierExample()
    ensures FormatReply("918123456789",
      [("name", Str("Jane Doe")), ("carrier", Str("Acme")), ("country", Str("NA"))]) ==
      Reply(Header("918123456789") + FieldLine("name", Str("Jane Doe"))
            + FieldLine("carrier", Str("Acme")), Html)
  {
    var fields := [("name", Str("Jane Doe")), ("carrier", Str("Acme")), ("country", Str("NA"))];
    NamedCarrierFilter(fields[0], fields[1], fields[2]);
    assert ReportedError(fields) == None by {
      assert Get(fields, "error") == None;
    }
    InfoTextOfTwo("918123456789", fields[0], fields[1]);
  }

  lemma NamedCarrierFilter(a: Field, b: Field, c: Field)
    requires a == ("name", Str("Jane Doe")) && b == ("carrier", Str("Acme"))
    requires c == ("country", Str("NA"))
    ensures MeaningfulFields([a, b, c]) == [a, b]
  {
    assert Meaningful(a.1) by {
      StripOfTrimmed("Jane Doe");
    }
    assert Meaningful(b.1) by {
      StripOfTrimmed("Acme");
    }
    assert !Meaningful(c.1) by {
      StripOfTrimmed("NA");
    }
    var fields := [a, b, c];
    assert MeaningfulFields(fields[..1]) == [a] by {
      assert fields[..1][..0] == [];
    }
    assert MeaningfulFields(fields[..2]) == [a, b] by {
      assert fields[..2][..1] == fields[..1];
    }
  }

  lemma InfoTextOfTwo(phone: string, a: Field, b: Field)
    ensures InfoText(phone, [a, b]) == Header(phone) + FieldLine(a.0, a.1) + FieldLine(b.0, b.1)
  {
    assert InfoText(phone, [a]) == Header(phone) + FieldLine(a.0, a.1) by {
      assert [a][..0] == [];
    }
    assert [a, b][..1] == [a];
  }
}
