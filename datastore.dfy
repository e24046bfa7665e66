/**
 * The datastore as the existence checks see it: the records of one kind,
 * and whether the next call to it fails. A single-result equality query
 * (`Model.query(filter).get()`) either raises the store's fault or returns
 * the first record that matches the filter, or `None`.
 */
module Datastore {
  import opened Wrappers

  /** The three client faults the checks name: `ConnectionRefusedError`, `RetryError`, `Aborted`. */
  datatype Fault = ConnRefused | Retry | Aborted

  datatype Store<R> = Store(records: seq<R>, fault: Option<Fault>)

  /** The first record satisfying `p`, if any. */
  function FirstMatch<R>(rs: seq<R>, p: R -> bool): (r: Option<R>)
    ensures r.Some? <==> exists i :: 0 <= i < |rs| && p(rs[i])
    ensures r.Some? ==> p(r.value) && r.value in rs
  {
    if rs == [] then None
    else if p(rs[0]) then Some(rs[0])
    else
      var r := FirstMatch(rs[1..], p);
      assert forall i :: 1 <= i < |rs| ==> rs[i] == rs[1..][i - 1];
      r
  }

  /** The match returned is the first one: no earlier record satisfies `p`. */
  lemma {:induction false} FirstMatchIsFirst<R>(rs: seq<R>, p: R -> bool)
    requires FirstMatch(rs, p).Some?
    ensures exists i :: 0 <= i < |rs| && rs[i] == FirstMatch(rs, p).value
                        && forall j :: 0 <= j < i ==> !p(rs[j])
  {
    if !p(rs[0]) {
      FirstMatchIsFirst(rs[1..], p);
      var i :| 0 <= i < |rs[1..]| && rs[1..][i] == FirstMatch(rs[1..], p).value
               && forall j :: 0 <= j < i ==> !p(rs[1..][j]);
      assert rs[i + 1] == FirstMatch(rs, p).value;
      assert forall j :: 1 <= j < i + 1 ==> rs[j] == rs[1..][j - 1];
    }
  }

  /** One single-result query: the store's fault, or the first match. */
  function Get<R>(st: Store<R>, p: R -> bool): (r: Result<Option<R>, Fault>)
    ensures r.Failure? <==> st.fault.Some?
    ensures r.Failure? ==> r.error == st.fault.value
    ensures r.Success? ==> (r.value.Some? <==> exists i :: 0 <= i < |st.records| && p(st.records[i]))
    ensures r.Success? && r.value.Some? ==> p(r.value.value) && r.value.value in st.records
  {
    if st.fault.Some? then Failure(st.fault.value) else Success(FirstMatch(st.records, p))
  }
}
