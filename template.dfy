/**
 `_copy_template` and `merge_template`: copy the template document, build one
 `replaceAllText` request per merge-context entry and send them as one batch
 update to the copy. The context is passed in explicitly.
 */
module Template {
  import opened Wrappers
  import opened PyStr
  import opened PyDict
  import opened Domain
  import opened Config

  /** The text a context key replaces in the document: the key upper-cased, in double braces. */
  function Placeholder(key: string): (p: string)
    ensures |p| == |key| + 4
    ensures p[..2] == "{{" && p[|key| + 2..] == "}}"
    ensures forall i :: 0 <= i < |key| ==> p[i + 2] == UpperChar(key[i])
  {
    "{{" + Upper(key) + "}}"
  }

  /** The braces enclose no lower-case letter, whatever the key. */
  lemma PlaceholderIsUpperCase(key: string)
    ensures forall i :: 2 <= i < |key| + 2 ==> !IsAsciiLower(Placeholder(key)[i])
  {
  }

  /** A key without lower-case letters appears in its placeholder as written. */
  lemma UpperCasePlaceholder(key: string)
    requires forall i :: 0 <= i < |key| ==> !IsAsciiLower(key[i])
    ensures Placeholder(key) == "{{" + key + "}}"
  {
    UpperKeepsUpperCase(key);
  }

  /** Matching is exact-case: no key yields the lower-case `{{date}}`. */
  lemma PlaceholderSpelling(key: string)
    ensures Placeholder(key) != "{{date}}"
  {
    if |key| == 4 {
      assert Placeholder(key)[2] == UpperChar(key[0]);
      assert "{{date}}"[2] == 'd';
    }
  }

  /** The key `date` yields `{{DATE}}`. */
  lemma DatePlaceholder()
    ensures Placeholder("date") == "{{DATE}}"
  {
    assert Upper("date") == "DATE";
  }

  /**
   The request list: one `replaceAllText` per context entry, in the context's
   iteration order, each exact-case and replacing the entry's placeholder
   with the entry's value.
   */
  function BuildRequests(context: Context): (reqs: seq<Request>)
    requires context.Valid()
    ensures |reqs| == |context.keys|
    ensures forall i :: 0 <= i < |reqs| ==>
      reqs[i] == ReplaceAllText(Placeholder(context.keys[i]), true, context.vals[context.keys[i]])
  {
    var items := Items(context);
    seq(|items|, i requires 0 <= i < |items| => ReplaceAllText(Placeholder(items[i].0), true, items[i].1))
  }

  /** Every context entry has a request for its placeholder and value, and every request comes from an entry. */
  lemma RequestsCoverContext(context: Context)
    requires context.Valid()
    ensures forall k :: k in context.vals ==>
      ReplaceAllText(Placeholder(k), true, context.vals[k]) in BuildRequests(context)
    ensures forall r :: r in BuildRequests(context) ==>
      r.matchCase && exists k :: k in context.vals && r.text == Placeholder(k) && r.replaceText == context.vals[k]
  {
    var reqs := BuildRequests(context);
    forall k | k in context.vals
      ensures ReplaceAllText(Placeholder(k), true, context.vals[k]) in reqs
    {
      var i :| 0 <= i < |context.keys| && context.keys[i] == k;
      assert reqs[i] == ReplaceAllText(Placeholder(k), true, context.vals[k]);
    }
  }

  datatype Merged = Merged(result: DocRef, calls: seq<Call>)

  /**
   `merge_template`: copy the template under `docName` into the folder, then
   send the requests for `context` to whatever the copy returned. The copy's
   id is the result when both calls succeed. A failed copy does not stop the
   batch update, which is addressed to the returned error object; if that
   update succeeds, the error object is the result. A failed batch update
   makes its own error the result.
   */
  function MergeTemplate(n: nat, templateId: string, docName: string, context: Context, svc: Services): (m: Merged)
    requires context.Valid()
    ensures m.calls == [CopyFile(templateId, docName, [DriveFolderId]),
                        BatchUpdate(svc.copy(n, templateId, docName), BuildRequests(context))]
    ensures m.result.DocId? <==>
      svc.copy(n, templateId, docName).DocId? && svc.batch(n, m.calls[1].documentId, m.calls[1].requests).None?
    ensures m.result.DocId? ==> m.result == svc.copy(n, templateId, docName)
    ensures svc.copy(n, templateId, docName).ErrorObject? && svc.batch(n, m.calls[1].documentId, m.calls[1].requests).None? ==>
      m.result == svc.copy(n, templateId, docName)
    ensures svc.batch(n, m.calls[1].documentId, m.calls[1].requests).Some? ==>
      m.result == ErrorObject(svc.batch(n, m.calls[1].documentId, m.calls[1].requests).value)
  {
    var copyId := svc.copy(n, templateId, docName);
    var reqs := BuildRequests(context);
    var calls := [CopyFile(templateId, docName, [DriveFolderId]), BatchUpdate(copyId, reqs)];
    match svc.batch(n, copyId, reqs)
    case Some(e) => Merged(ErrorObject(e), calls)
    case None => Merged(copyId, calls)
  }
}
