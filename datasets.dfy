/**
  dataset.rb: a dataset is a stream of lines; the first holds the dataset's
  ID alone, every following line describes one instance. The stream is
  modelled as the sequence of its lines.
 */
module Datasets {
  import opened Instances

  datatype DatasetData = DatasetData(id: nat, instances: seq<InstanceData>)

  /** `parse_id`: the first line must hold exactly one word, a non-negative integer. */
  function ParseId(lines: seq<string>): (r: Result<nat>)
    ensures r.Success? ==> |lines| > 0 && |Split(lines[0])| == 1
                           && ParseInteger(Split(lines[0])[0]) == Some(r.value as int)
  {
    if lines == [] then Failure(MissingId)
    else
      var words := Split(lines[0]);
      if |words| != 1 then Failure(FirstLineNotId)
      else
        match ParseInteger(words[0])
        case None => Failure(IdNotInteger)
        case Some(v) => if v < 0 then Failure(NegativeId) else Success(v as nat)
  }

  /** One instance per line, in line order; the first line that fails decides the error. */
  function ParseInstances(lines: seq<string>): (r: Result<seq<InstanceData>>)
    ensures r.Success? ==> |r.value| == |lines|
    ensures r.Success? ==> forall i :: 0 <= i < |lines| ==> Instances.Parse(lines[i]) == Success(r.value[i])
  {
    if lines == [] then Success([])
    else
      var first :- Instances.Parse(lines[0]);
      var rest :- ParseInstances(lines[1..]);
      assert forall i :: 1 <= i < |lines| ==> lines[i] == lines[1..][i - 1];
      Success([first] + rest)
  }

  /** `Dataset.parse`: the ID, then at least one instance. */
  function Parse(lines: seq<string>): (r: Result<DatasetData>)
    ensures r.Success? ==> ParseId(lines) == Success(r.value.id)
    ensures r.Success? ==> |r.value.instances| == |lines| - 1 >= 1
    ensures r.Success? ==> forall i :: 0 <= i < |r.value.instances| ==>
              Instances.Parse(lines[i + 1]) == Success(r.value.instances[i])
  {
    var id :- ParseId(lines);
    var instances :- ParseInstances(lines[1..]);
    if instances == [] then Failure(MissingInstances)
    else Success(DatasetData(id, instances))
  }

  /** A line that fails to parse, after lines that parse, decides the error of the whole list. */
  lemma {:induction false} ParseInstancesFirstFailure(lines: seq<string>, i: nat)
    requires i < |lines|
    requires forall j :: 0 <= j < i ==> Instances.Parse(lines[j]).Success?
    requires Instances.Parse(lines[i]).Failure?
    ensures ParseInstances(lines) == Failure(Instances.Parse(lines[i]).error)
  {
    if i > 0 {
      ParseInstancesFirstFailure(lines[1..], i - 1);
    }
  }

  /** Every line parses exactly when the list of instances parses. */
  lemma {:induction false} ParseInstancesSucceeds(lines: seq<string>)
    ensures ParseInstances(lines).Success? <==> forall i :: 0 <= i < |lines| ==> Instances.Parse(lines[i]).Success?
  {
    if lines != [] {
      ParseInstancesSucceeds(lines[1..]);
      assert forall i :: 1 <= i < |lines| ==> lines[i] == lines[1..][i - 1];
    }
  }

  /** The ID checks, in the order the source makes them. */
  lemma IdErrors(lines: seq<string>)
    ensures lines == [] <==> Parse(lines) == Failure(MissingId)
    ensures lines != [] && |Split(lines[0])| != 1 ==> Parse(lines) == Failure(FirstLineNotId)
    ensures lines != [] && |Split(lines[0])| == 1 && ParseInteger(Split(lines[0])[0]).None? ==>
              Parse(lines) == Failure(IdNotInteger)
    ensures lines != [] && |Split(lines[0])| == 1 && ParseInteger(Split(lines[0])[0]).Some?
            && ParseInteger(Split(lines[0])[0]).value < 0 ==>
              Parse(lines) == Failure(NegativeId)
  {
    if lines != [] && Parse(lines) == Failure(MissingId) {
      var words := Split(lines[0]);
      if |words| == 1 && ParseInteger(words[0]).Some? && ParseInteger(words[0]).value >= 0 {
        var r := ParseInstances(lines[1..]);
        if r.Failure? {
          NoInstanceErrorIsIdError(lines[1..]);
        }
      }
    }
  }

  /** Instance lines never raise an ID error. */
  lemma {:induction false} NoInstanceErrorIsIdError(lines: seq<string>)
    ensures ParseInstances(lines).Failure? ==>
              ParseInstances(lines).error !in {MissingId, FirstLineNotId, NegativeId, IdNotInteger, MissingInstances}
  {
    if lines != [] {
      NoInstanceErrorIsIdError(lines[1..]);
    }
  }

  /** A valid ID line alone raises 'missing instances'; any instance error propagates unchanged. */
  lemma InstanceErrors(lines: seq<string>, i: nat)
    requires ParseId(lines).Success?
    ensures |lines| == 1 ==> Parse(lines) == Failure(MissingInstances)
    ensures 1 <= i < |lines| && (forall j :: 1 <= j < i ==> Instances.Parse(lines[j]).Success?)
            && Instances.Parse(lines[i]).Failure? ==>
              Parse(lines) == Failure(Instances.Parse(lines[i]).error)
  {
    if |lines| == 1 {
      assert lines[1..] == [];
    }
    if 1 <= i < |lines| && (forall j :: 1 <= j < i ==> Instances.Parse(lines[j]).Success?)
       && Instances.Parse(lines[i]).Failure?
    {
      InstanceLineFails(lines, i);
    }
  }

  lemma InstanceLineFails(lines: seq<string>, i: nat)
    requires ParseId(lines).Success?
    requires 1 <= i < |lines| && forall j :: 1 <= j < i ==> Instances.Parse(lines[j]).Success?
    requires Instances.Parse(lines[i]).Failure?
    ensures Parse(lines) == Failure(Instances.Parse(lines[i]).error)
  {
    var rest := lines[1..];
    assert forall j :: 0 <= j < i - 1 ==> rest[j] == lines[j + 1];
    assert rest[i - 1] == lines[i];
    ParseInstancesFirstFailure(rest, i - 1);
  }

  /** A dataset parses exactly when its ID is valid, there is an instance line, and every instance line parses. */
  lemma ParseSucceeds(lines: seq<string>)
    ensures Parse(lines).Success? <==>
              ParseId(lines).Success? && |lines| >= 2 &&
              forall i :: 1 <= i < |lines| ==> Instances.Parse(lines[i]).Success?
  {
    if lines != [] {
      ParseInstancesSucceeds(lines[1..]);
      assert forall i :: 1 <= i < |lines| ==> lines[i] == lines[1..][i - 1];
    }
  }
}
