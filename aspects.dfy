/** The analyzer's aspects: one measurement of one image, evaluated from the
    landmark names a config line requests. An aspect is meristic (a count of
    landmarks named like the aspect), algebraic (an equation over the values
    of aspects evaluated before it) or a distance chain through the
    requested landmarks. */
module Aspects {
  import opened Base
  import opened Text
  import opened Dicts
  import opened Values
  import opened Images

  /* ---------- distance chains ---------- */

  /** `get_distance`: the Euclidean distance, with the host's square root. */
  function Distance(a: Landmark, b: Landmark, host: Host): real
  {
    host.sqrt((a.x - b.x) * (a.x - b.x) + (a.y - b.y) * (a.y - b.y))
  }

  /** The distance from each landmark to the next, in order. */
  function Legs(lms: seq<Landmark>, host: Host): (r: seq<real>)
    ensures |r| == if |lms| < 2 then 0 else |lms| - 1
    ensures forall i :: 0 <= i < |r| ==> r[i] == Distance(lms[i], lms[i + 1], host)
  {
    if |lms| < 2 then [] else seq(|lms| - 1, i requires 0 <= i < |lms| - 1 => Distance(lms[i], lms[i + 1], host))
  }

  function Floats(xs: seq<real>): (r: seq<Num>)
    ensures |r| == |xs| && forall i :: 0 <= i < |xs| ==> r[i] == Float(xs[i])
  {
    seq(|xs|, i requires 0 <= i < |xs| => Float(xs[i]))
  }

  /** `sum(distances)`: the int 0 when there is no leg, a float otherwise. */
  function ChainValue(lms: seq<Landmark>, host: Host): Value
  {
    Of(SumNums(Floats(Legs(lms, host))))
  }

  /** Fewer than two landmarks make the int 0; otherwise the chain is the
      float sum of its legs. */
  lemma ChainValueIs(lms: seq<Landmark>, host: Host)
    ensures |lms| < 2 ==> ChainValue(lms, host) == Of(Int(0))
    ensures |lms| >= 2 ==> ChainValue(lms, host) == Of(Float(Sum(Legs(lms, host))))
  {
    var legs := Legs(lms, host);
    var fs := Floats(legs);
    if |lms| < 2 {
      assert fs == [];
    } else {
      assert !AllInts(fs) by { assert !fs[0].Int?; }
      assert Reals(fs) == legs;
      var t := SumNums(fs);
      assert t.Float? && t.Real() == Sum(legs);
    }
  }

  lemma {:induction false} SumAppend(xs: seq<real>, ys: seq<real>)
    ensures Sum(xs + ys) == Sum(xs) + Sum(ys)
    decreases |ys|
  {
    if ys != [] {
      var n := |ys| - 1;
      SumAppend(xs, ys[..n]);
      assert (xs + ys)[..|xs + ys| - 1] == xs + ys[..n];
      assert (xs + ys)[|xs + ys| - 1] == ys[n];
      assert Sum(xs + ys) == Sum(xs + ys[..n]) + ys[n];
      assert Sum(ys) == Sum(ys[..n]) + ys[n];
    } else {
      assert xs + ys == xs;
    }
  }

  /** A chain through `x` is the chain up to `x` followed by the chain from
      `x`. */
  lemma ChainSplits(p: seq<Landmark>, x: Landmark, q: seq<Landmark>, host: Host)
    ensures Sum(Legs(p + [x] + q, host)) == Sum(Legs(p + [x], host)) + Sum(Legs([x] + q, host))
  {
    var all := p + [x] + q;
    var left := Legs(p + [x], host);
    var right := Legs([x] + q, host);
    assert Legs(all, host) == left + right by {
      assert |Legs(all, host)| == |left| + |right|;
      forall i | 0 <= i < |left| + |right|
        ensures Legs(all, host)[i] == (left + right)[i]
      {
        if i >= |left| {
          assert all[i] == ([x] + q)[i - |left|];
          assert all[i + 1] == ([x] + q)[i - |left| + 1];
        }
      }
    }
    SumAppend(left, right);
  }

  function Reverse<T>(s: seq<T>): (r: seq<T>)
    ensures |r| == |s| && forall i :: 0 <= i < |s| ==> r[i] == s[|s| - 1 - i]
  {
    seq(|s|, i requires 0 <= i < |s| => s[|s| - 1 - i])
  }

  lemma {:induction false} SumReverse(xs: seq<real>)
    ensures Sum(Reverse(xs)) == Sum(xs)
    decreases |xs|
  {
    if xs != [] {
      var n := |xs| - 1;
      SumReverse(xs[..n]);
      assert Reverse(xs) == [xs[n]] + Reverse(xs[..n]);
      SumAppend([xs[n]], Reverse(xs[..n]));
      assert [xs[n]][..0] == [];
    }
  }

  /** Walking the landmarks backwards gives the same chain length. */
  lemma ChainReversed(lms: seq<Landmark>, host: Host)
    ensures Sum(Legs(Reverse(lms), host)) == Sum(Legs(lms, host))
  {
    var legs := Legs(lms, host);
    var back := Legs(Reverse(lms), host);
    assert back == Reverse(legs) by {
      forall i | 0 <= i < |back|
        ensures back[i] == Reverse(legs)[i]
      {
        var a, b := lms[|lms| - 1 - i], lms[|lms| - 2 - i];
        assert (a.x - b.x) * (a.x - b.x) == (b.x - a.x) * (b.x - a.x);
        assert (a.y - b.y) * (a.y - b.y) == (b.y - a.y) * (b.y - a.y);
      }
    }
    SumReverse(legs);
  }

  /* ---------- connecting landmarks ---------- */

  /** Whether `connect_landmarks` attaches `l` for the requested name: its
      own name, or for the literal `count` the aspect's name. */
  predicate Selects(requested: string, aspectName: string, l: Landmark)
  {
    requested == l.name || (requested == "count" && l.name == aspectName)
  }

  /** The landmarks one requested name connects, in the image's order. */
  function Matches(requested: string, aspectName: string, lms: seq<Landmark>): (r: seq<Landmark>)
    ensures forall l :: l in r ==> l in lms
  {
    if lms == [] then []
    else
      var n := |lms| - 1;
      var rest := Matches(requested, aspectName, lms[..n]);
      assert forall l :: l in lms[..n] ==> l in lms;
      if Selects(requested, aspectName, lms[n]) then rest + [lms[n]] else rest
  }

  /** `connect_landmarks`: the matches of each requested name, in config order. */
  function Connected(names: seq<string>, aspectName: string, lms: seq<Landmark>): seq<Landmark>
  {
    if names == [] then [] else Connected(names[..|names| - 1], aspectName, lms) + Matches(names[|names| - 1], aspectName, lms)
  }

  /** Some landmark is named like the aspect, but not `count` itself. */
  predicate Hit(aspectName: string, lms: seq<Landmark>)
  {
    exists l :: l in lms && l.name == aspectName && l.name != "count"
  }

  /** The meristic flag: `count` is requested and matched a landmark named
      like the aspect (a landmark named `count` is matched by name instead). */
  predicate CountHit(names: seq<string>, aspectName: string, lms: seq<Landmark>)
  {
    "count" in names && Hit(aspectName, lms)
  }

  /** The landmarks a name connects are exactly those it selects. */
  lemma {:induction false} MatchesAre(requested: string, aspectName: string, lms: seq<Landmark>, l: Landmark)
    ensures l in Matches(requested, aspectName, lms) <==> l in lms && Selects(requested, aspectName, l)
    decreases |lms|
  {
    if lms != [] {
      var n := |lms| - 1;
      MatchesAre(requested, aspectName, lms[..n], l);
      assert lms == lms[..n] + [lms[n]];
    }
  }

  /** Requesting a name that no landmark has, other than `count`, connects
      nothing; so a distance aspect over it is short of a landmark. */
  lemma {:induction false} MissingNameConnectsNothing(requested: string, aspectName: string, lms: seq<Landmark>)
    requires requested != "count" && forall i :: 0 <= i < |lms| ==> lms[i].name != requested
    ensures Matches(requested, aspectName, lms) == []
    decreases |lms|
  {
    if lms != [] {
      MissingNameConnectsNothing(requested, aspectName, lms[..|lms| - 1]);
    }
  }

  /** A name held by exactly one landmark connects that landmark alone. */
  lemma {:induction false} UniqueNameConnectsOne(requested: string, aspectName: string, lms: seq<Landmark>, k: nat)
    requires requested != "count" && k < |lms| && lms[k].name == requested
    requires forall i :: 0 <= i < |lms| && i != k ==> lms[i].name != requested
    ensures Matches(requested, aspectName, lms) == [lms[k]]
    decreases |lms|
  {
    var n := |lms| - 1;
    if k == n {
      MissingNameConnectsNothing(requested, aspectName, lms[..n]);
    } else {
      UniqueNameConnectsOne(requested, aspectName, lms[..n], k);
    }
  }

  /** Connecting names whose landmarks are each unique follows config
      order: the j-th connected landmark is the one named by the j-th name,
      wherever it sits in the image. */
  lemma {:induction false} ConnectedFollowsConfig(names: seq<string>, aspectName: string, lms: seq<Landmark>, at: seq<nat>)
    requires |at| == |names|
    requires forall j :: 0 <= j < |names| ==> names[j] != "count" && at[j] < |lms| && lms[at[j]].name == names[j]
    requires forall j, i :: 0 <= j < |names| && 0 <= i < |lms| && i != at[j] ==> lms[i].name != names[j]
    ensures |Connected(names, aspectName, lms)| == |names|
    ensures forall j :: 0 <= j < |names| ==> Connected(names, aspectName, lms)[j] == lms[at[j]]
    decreases |names|
  {
    if names != [] {
      var n := |names| - 1;
      ConnectedFollowsConfig(names[..n], aspectName, lms, at[..n]);
      UniqueNameConnectsOne(names[n], aspectName, lms, at[n]);
    }
  }

  lemma {:induction false} ConnectedHas(names: seq<string>, aspectName: string, lms: seq<Landmark>, j: nat, l: Landmark)
    requires j < |names| && l in Matches(names[j], aspectName, lms)
    ensures l in Connected(names, aspectName, lms)
    decreases |names|
  {
    var n := |names| - 1;
    if j < n {
      ConnectedHas(names[..n], aspectName, lms, j, l);
    }
  }

  /* ---------- algebraic aspects ---------- */

  /** An aspect is algebraic when it requests one name holding placeholders. */
  predicate IsMath(names: seq<string>)
  {
    |names| == 1 && Placeholders(names[0]) != []
  }

  /** `selected` after scanning the image's aspects for `variable`: the last
      aspect of that name, or the one selected before when none has it. */
  function Pick(aspects: seq<Evaluated>, variable: string, selected: Option<Evaluated>): (r: Option<Evaluated>)
    decreases |aspects|
  {
    if aspects == [] then selected
    else
      var last := aspects[|aspects| - 1];
      if last.name == variable then Some(last) else Pick(aspects[..|aspects| - 1], variable, selected)
  }

  function Last(picks: seq<Evaluated>): Option<Evaluated>
  {
    if picks == [] then None else Some(picks[|picks| - 1])
  }

  /** The aspect `get_aspect_values` selects for each variable, in order;
      `selected` carries over from one variable to the next, and reading it
      before anything matched raises UnboundLocalError. */
  function Picks(aspects: seq<Evaluated>, variables: seq<string>): (r: Result<seq<Evaluated>>)
    ensures r.Ok? ==> |r.value| == |variables|
    ensures r.Err? ==> r.error == UnboundLocalError
  {
    if variables == [] then Ok([])
    else
      var n := |variables| - 1;
      var done :- Picks(aspects, variables[..n]);
      match Pick(aspects, variables[n], Last(done))
      case None => Err(UnboundLocalError)
      case Some(s) => Ok(done + [s])
  }

  /** `values[var] = selected.value`, variable after variable. */
  function Bindings(variables: seq<string>, picks: seq<Evaluated>): map<string, Value>
    requires |picks| == |variables|
  {
    if variables == [] then map[]
    else
      var n := |variables| - 1;
      Bindings(variables[..n], picks[..n])[variables[n] := picks[n].value]
  }

  /** Every variable is bound, to the value of the aspect selected for its
      last occurrence. */
  lemma {:induction false} BindingsBind(variables: seq<string>, picks: seq<Evaluated>, j: nat)
    requires |picks| == |variables| && j < |variables|
    requires forall i :: j < i < |variables| ==> variables[i] != variables[j]
    ensures variables[j] in Bindings(variables, picks)
    ensures Bindings(variables, picks)[variables[j]] == picks[j].value
    decreases |variables|
  {
    var n := |variables| - 1;
    if j < n {
      BindingsBind(variables[..n], picks[..n], j);
    }
  }

  /** The last aspect of the variable's name wins. */
  lemma {:induction false} PickLastMatch(aspects: seq<Evaluated>, variable: string, selected: Option<Evaluated>, k: nat)
    requires k < |aspects| && aspects[k].name == variable
    requires forall i :: k < i < |aspects| ==> aspects[i].name != variable
    ensures Pick(aspects, variable, selected) == Some(aspects[k])
    decreases |aspects|
  {
    if k < |aspects| - 1 {
      PickLastMatch(aspects[..|aspects| - 1], variable, selected, k);
    }
  }

  /** A variable no aspect has keeps the aspect selected before it. */
  lemma {:induction false} PickStale(aspects: seq<Evaluated>, variable: string, selected: Option<Evaluated>)
    requires forall i :: 0 <= i < |aspects| ==> aspects[i].name != variable
    ensures Pick(aspects, variable, selected) == selected
    decreases |aspects|
  {
    if aspects != [] {
      PickStale(aspects[..|aspects| - 1], variable, selected);
    }
  }

  /** A variable some aspect has is always found. */
  lemma {:induction false} PickFound(aspects: seq<Evaluated>, variable: string, selected: Option<Evaluated>, k: nat)
    requires k < |aspects| && aspects[k].name == variable
    ensures Pick(aspects, variable, selected).Some?
    decreases |aspects|
  {
    if aspects[|aspects| - 1].name != variable {
      PickFound(aspects[..|aspects| - 1], variable, selected, k);
    }
  }

  lemma {:induction false} PickKeeps(aspects: seq<Evaluated>, variable: string, s: Evaluated)
    ensures Pick(aspects, variable, Some(s)).Some?
    decreases |aspects|
  {
    if aspects != [] {
      PickKeeps(aspects[..|aspects| - 1], variable, s);
    }
  }

  /** Only the first variable can fail: the values are found exactly when
      it names some aspect. */
  lemma {:induction false} PicksOk(aspects: seq<Evaluated>, variables: seq<string>)
    requires variables != []
    ensures Picks(aspects, variables).Ok? <==> Pick(aspects, variables[0], None).Some?
    decreases |variables|
  {
    var n := |variables| - 1;
    if n > 0 {
      PicksOk(aspects, variables[..n]);
      var done := Picks(aspects, variables[..n]);
      if done.Ok? {
        PickKeeps(aspects, variables[n], done.value[n - 1]);
      }
    }
  }

  /** The values are missing exactly when no aspect has the first variable. */
  lemma PicksFail(aspects: seq<Evaluated>, variables: seq<string>)
    requires variables != []
    ensures Picks(aspects, variables).Err?
        <==> forall i :: 0 <= i < |aspects| ==> aspects[i].name != variables[0]
  {
    PicksOk(aspects, variables);
    if forall i :: 0 <= i < |aspects| ==> aspects[i].name != variables[0] {
      PickStale(aspects, variables[0], None);
    } else {
      var k :| 0 <= k < |aspects| && aspects[k].name == variables[0];
      PickFound(aspects, variables[0], None, k);
    }
  }

  /** The aspect selected for the j-th variable: scanned with the one
      selected for the variable before it. */
  lemma {:induction false} PicksEach(aspects: seq<Evaluated>, variables: seq<string>, j: nat)
    requires Picks(aspects, variables).Ok? && j < |variables|
    ensures Some(Picks(aspects, variables).value[j])
        == Pick(aspects, variables[j], if j == 0 then None else Some(Picks(aspects, variables).value[j - 1]))
    decreases |variables|
  {
    var n := |variables| - 1;
    if j < n {
      PicksEach(aspects, variables[..n], j);
    }
  }

  /** Among pseudoreplicates the last aspect of the variable's name wins. */
  lemma PicksLastWins(aspects: seq<Evaluated>, variables: seq<string>, j: nat, k: nat)
    requires Picks(aspects, variables).Ok? && j < |variables|
    requires k < |aspects| && aspects[k].name == variables[j]
    requires forall i :: k < i < |aspects| ==> aspects[i].name != variables[j]
    ensures Picks(aspects, variables).value[j] == aspects[k]
  {
    PicksEach(aspects, variables, j);
    PickLastMatch(aspects, variables[j], if j == 0 then None else Some(Picks(aspects, variables).value[j - 1]), k);
  }

  /** A later variable that names no aspect silently reuses the aspect
      selected for the variable before it. */
  lemma PicksStale(aspects: seq<Evaluated>, variables: seq<string>, j: nat)
    requires Picks(aspects, variables).Ok? && 0 < j < |variables|
    requires forall i :: 0 <= i < |aspects| ==> aspects[i].name != variables[j]
    ensures Picks(aspects, variables).value[j] == Picks(aspects, variables).value[j - 1]
  {
    PicksEach(aspects, variables, j);
    PickStale(aspects, variables[j], Some(Picks(aspects, variables).value[j - 1]));
  }

  lemma {:induction false} PicksErrorSticks(aspects: seq<Evaluated>, variables: seq<string>, k: nat)
    requires k <= |variables| && Picks(aspects, variables[..k]).Err?
    ensures Picks(aspects, variables).Err?
    decreases |variables|
  {
    var n := |variables| - 1;
    if k <= n {
      assert variables[..n][..k] == variables[..k];
      PicksErrorSticks(aspects, variables[..n], k);
    } else {
      assert variables[..k] == variables;
    }
  }

  /* ---------- the value of an aspect ---------- */

  /** What `check_math` leaves: for an algebraic aspect, the equation with
      the selected values substituted, and the aspects selected; nothing
      otherwise. */
  function MathPart(names: seq<string>, aspects: seq<Evaluated>, host: Host): Result<Option<(string, seq<Evaluated>)>>
  {
    if !IsMath(names) then Ok(None)
    else
      var variables := Placeholders(names[0]);
      var picks :- Picks(aspects, variables);
      var equation :- host.substitute(names[0], Bindings(variables, picks));
      Ok(Some((equation, picks)))
  }

  /** `check_math`, `connect_landmarks` and `calculate` in turn: a meristic
      aspect counts its landmarks, an algebraic one evaluates its equation,
      and a distance aspect is NA unless it connected as many landmarks as
      it requested names. */
  function Outcome(names: seq<string>, aspectName: string, lms: seq<Landmark>, aspects: seq<Evaluated>, host: Host): Result<Value>
  {
    var math :- MathPart(names, aspects, host);
    var connected := Connected(names, aspectName, lms);
    if CountHit(names, aspectName, lms) then Ok(Of(Int(|connected|)))
    else if math.Some? then Ok(host.evaluate(math.value.0))
    else if |connected| == |names| then Ok(ChainValue(connected, host))
    else Ok(NA)
  }

  /** A distance aspect is NA exactly when the number of connected landmarks
      differs from the number of requested names; otherwise it is the chain
      through them. */
  lemma DistanceNAIffMissing(names: seq<string>, aspectName: string, lms: seq<Landmark>, aspects: seq<Evaluated>, host: Host)
    requires !IsMath(names) && !CountHit(names, aspectName, lms)
    ensures Outcome(names, aspectName, lms, aspects, host).Ok?
    ensures Outcome(names, aspectName, lms, aspects, host).value == NA
        <==> |Connected(names, aspectName, lms)| != |names|
    ensures |Connected(names, aspectName, lms)| == |names| ==>
        Outcome(names, aspectName, lms, aspects, host).value == ChainValue(Connected(names, aspectName, lms), host)
  {
  }

  /** A single requested landmark found once is a chain of length int 0. */
  lemma SingleLandmarkIsZero(requested: string, aspectName: string, lms: seq<Landmark>, aspects: seq<Evaluated>, host: Host, k: nat)
    requires requested != "count" && Placeholders(requested) == []
    requires k < |lms| && lms[k].name == requested
    requires forall i :: 0 <= i < |lms| && i != k ==> lms[i].name != requested
    ensures Outcome([requested], aspectName, lms, aspects, host) == Ok(Of(Int(0)))
  {
    UniqueNameConnectsOne(requested, aspectName, lms, k);
    assert Connected([requested], aspectName, lms) == [lms[k]] by {
      assert [requested][..0] == [];
    }
    ChainValueIs([lms[k]], host);
  }

  /** A meristic aspect is the number of landmarks connected, at least one,
      and never NA. */
  lemma MeristicCounts(names: seq<string>, aspectName: string, lms: seq<Landmark>, aspects: seq<Evaluated>, host: Host)
    requires CountHit(names, aspectName, lms)
    ensures Outcome(names, aspectName, lms, aspects, host) == Ok(Of(Int(|Connected(names, aspectName, lms)|)))
    ensures |Connected(names, aspectName, lms)| >= 1
  {
    var l :| l in lms && l.name == aspectName && l.name != "count";
    var j :| 0 <= j < |names| && names[j] == "count";
    assert !IsMath(names) by {
      if |names| == 1 {
        NoBraceNoPlaceholders(names[0]);
      }
    }
    MatchesAre("count", aspectName, lms, l);
    ConnectedHas(names, aspectName, lms, j, l);
  }

  /** `name:count` on an image without a landmark of that name connects
      nothing, leaves the aspect non-meristic, and so gives NA, not 0. */
  lemma CountWithoutLandmarksIsNA(aspectName: string, lms: seq<Landmark>, aspects: seq<Evaluated>, host: Host)
    requires forall i :: 0 <= i < |lms| ==> lms[i].name != aspectName && lms[i].name != "count"
    ensures Outcome(["count"], aspectName, lms, aspects, host) == Ok(NA)
  {
    assert !IsMath(["count"]) by {
      NoBraceNoPlaceholders("count");
    }
    MissingMatchesCount(aspectName, lms);
    assert Connected(["count"], aspectName, lms) == Connected([], aspectName, lms) + Matches("count", aspectName, lms);
  }

  lemma {:induction false} MissingMatchesCount(aspectName: string, lms: seq<Landmark>)
    requires forall i :: 0 <= i < |lms| ==> lms[i].name != aspectName && lms[i].name != "count"
    ensures Matches("count", aspectName, lms) == []
    decreases |lms|
  {
    if lms != [] {
      MissingMatchesCount(aspectName, lms[..|lms| - 1]);
    }
  }

  /** An algebraic aspect whose first variable names no aspect evaluated
      before it raises UnboundLocalError. */
  lemma MathUnbound(raw: string, aspectName: string, lms: seq<Landmark>, aspects: seq<Evaluated>, host: Host)
    requires Placeholders(raw) != []
    requires forall i :: 0 <= i < |aspects| ==> aspects[i].name != Placeholders(raw)[0]
    ensures Outcome([raw], aspectName, lms, aspects, host) == Err(UnboundLocalError)
  {
    PicksFail(aspects, Placeholders(raw));
  }

  /** Otherwise an algebraic aspect is what the host makes of its equation
      with the selected values substituted. */
  lemma MathEvaluates(raw: string, aspectName: string, lms: seq<Landmark>, aspects: seq<Evaluated>, host: Host, k: nat)
    requires Placeholders(raw) != []
    requires k < |aspects| && aspects[k].name == Placeholders(raw)[0]
    ensures Picks(aspects, Placeholders(raw)).Ok?
    ensures var equation := host.substitute(raw, Bindings(Placeholders(raw), Picks(aspects, Placeholders(raw)).value));
      && (Outcome([raw], aspectName, lms, aspects, host).Ok? <==> equation.Ok?)
      && (equation.Ok? ==> Outcome([raw], aspectName, lms, aspects, host).value == host.evaluate(equation.value))
  {
    PicksFail(aspects, Placeholders(raw));
    assert !CountHit([raw], aspectName, lms) by {
      if "count" in [raw] {
        assert raw == "count";
        NoBraceNoPlaceholders("count");
      }
    }
  }

  /* ---------- the aspect object ---------- */

  /** `Aspect`: built empty for one config line, then filled by
      `check_math`, `connect_landmarks` and `calculate` for one image. The
      aspects `get_aspect_values` selects are kept in `operands` (the source
      appends them to the landmark list, where nothing reads them again). */
  class Aspect {
    const id: string
    const name: string
    var landmarksNames: seq<string>
    var landmarks: seq<Landmark>
    var operands: seq<Evaluated>
    var equation: string
    var value: Option<Value>
    var meristic: bool
    var math: bool

    constructor (id: string, name: string)
      ensures this.id == id && this.name == name
      ensures landmarksNames == [] && landmarks == [] && operands == []
      ensures equation == "" && value == None && !meristic && !math
    {
      this.id := id;
      this.name := name;
      landmarksNames := [];
      landmarks := [];
      operands := [];
      equation := "";
      value := None;
      meristic := false;
      math := false;
    }

    /** `add_landmark`: appends. */
    method AddLandmark(landmark: Landmark)
      modifies this`landmarks
      ensures landmarks == old(landmarks) + [landmark]
    {
      landmarks := landmarks + [landmark];
    }

    /** The inner loop of `connect_landmarks`, for one requested name. */
    method ConnectName(requested: string, lms: seq<Landmark>)
      modifies this`landmarks, this`meristic
      ensures landmarks == old(landmarks) + Matches(requested, name, lms)
      ensures meristic == (old(meristic) || (requested == "count" && Hit(name, lms)))
    {
      for j := 0 to |lms|
        invariant landmarks == old(landmarks) + Matches(requested, name, lms[..j])
        invariant meristic == (old(meristic) || (requested == "count" && Hit(name, lms[..j])))
      {
        var landmark := lms[j];
        assert lms[..j + 1][..j] == lms[..j];
        if requested == landmark.name {
          AddLandmark(landmark);
        } else if requested == "count" && landmark.name == name {
          AddLandmark(landmark);
          meristic := true;
        }
        HitStep(lms, j);
      }
      assert lms[..|lms|] == lms;
    }

    /** `connect_landmarks`: for each requested name in config order, every
        landmark of the image it selects, in the image's order; meristic
        once `count` matched a landmark named like the aspect. */
    method ConnectLandmarks(image: Image)
      requires image.landmarks.Valid()
      modifies this`landmarks, this`meristic
      ensures landmarks == old(landmarks) + Connected(landmarksNames, name, image.landmarks.Items())
      ensures meristic == (old(meristic) || CountHit(landmarksNames, name, image.landmarks.Items()))
    {
      var lms := image.landmarks.Items();
      for i := 0 to |landmarksNames|
        invariant landmarks == old(landmarks) + Connected(landmarksNames[..i], name, lms)
        invariant meristic == (old(meristic) || CountHit(landmarksNames[..i], name, lms))
      {
        ConnectName(landmarksNames[i], lms);
        assert landmarksNames[..i + 1] == landmarksNames[..i] + [landmarksNames[i]];
      }
      assert landmarksNames[..|landmarksNames|] == landmarksNames;
    }

    /** `get_aspect_values`: for each variable, the last aspect of that name
        (or the one selected for the variable before), its value bound to
        the variable and the aspect kept as an operand. */
    method GetAspectValues(aspects: seq<Evaluated>, variables: seq<string>) returns (r: Result<map<string, Value>>)
      modifies this`operands
      ensures r.Ok? <==> Picks(aspects, variables).Ok?
      ensures r.Ok? ==> r.value == Bindings(variables, Picks(aspects, variables).value)
      ensures r.Ok? ==> operands == old(operands) + Picks(aspects, variables).value
      ensures r.Err? ==> r.error == UnboundLocalError && operands == old(operands)
    {
      var values: map<string, Value> := map[];
      var selected: Option<Evaluated> := None;
      ghost var picks: seq<Evaluated> := [];
      for i := 0 to |variables|
        invariant Picks(aspects, variables[..i]) == Ok(picks)
        invariant selected == Last(picks)
        invariant values == Bindings(variables[..i], picks)
        invariant operands == old(operands) + picks
      {
        assert variables[..i + 1][..i] == variables[..i];
        selected := Select(aspects, variables[i], selected);
        if selected.None? {
          if picks != [] {
            PickKeeps(aspects, variables[i], picks[|picks| - 1]);
          }
          PicksErrorSticks(aspects, variables, i + 1);
          return Err(UnboundLocalError);
        }
        values := values[variables[i] := selected.value.value];
        operands := operands + [selected.value];
        picks := picks + [selected.value];
      }
      assert variables[..|variables|] == variables;
      return Ok(values);
    }

    /** `check_math`: an aspect requesting one name with placeholders gets
        that equation with the selected values substituted, and is marked
        algebraic; the flag is returned. */
    method CheckMath(image: Image, host: Host) returns (r: Result<bool>)
      requires image.aspects.Valid()
      modifies this`equation, this`math, this`operands
      ensures var part := MathPart(landmarksNames, image.aspects.Items(), host);
        && (r.Ok? <==> part.Ok?)
        && (r.Err? ==> r.error == part.error && equation == old(equation) && math == old(math))
        && (r.Ok? && part.value.None? ==> r.value == math == old(math) && equation == old(equation) && operands == old(operands))
        && (r.Ok? && part.value.Some? ==>
              r.value && math && equation == part.value.value.0 && operands == old(operands) + part.value.value.1)
    {
      if |landmarksNames| == 1 {
        var raw := landmarksNames[0];
        var variables := Placeholders(raw);
        if variables != [] {
          var values :- GetAspectValues(image.aspects.Items(), variables);
          var substituted :- host.substitute(raw, values);
          equation := substituted;
          math := true;
          return Ok(math);
        }
      }
      return Ok(math);
    }

    /** `check`: nothing is missing from a meristic or algebraic aspect, nor
        from one that connected a landmark per requested name. */
    predicate Check()
      reads this
    {
      meristic || math || |landmarksNames| == |landmarks|
    }

    /** `calculate`: the count, the evaluated equation, or the chain of
        distances through the connected landmarks; NA when `check` fails. */
    method Calculate(host: Host)
      modifies this`value
      ensures meristic ==> value == Some(Of(Int(|landmarks|)))
      ensures !meristic && math ==> value == Some(host.evaluate(equation))
      ensures !Check() ==> value == Some(NA)
      ensures !meristic && !math && Check() ==> value == Some(ChainValue(landmarks, host))
    {
      if Check() {
        if meristic {
          value := Some(Of(Int(|landmarks|)));
        } else if math {
          value := Some(host.evaluate(equation));
        } else {
          var distances := Distances(landmarks, host);
          value := Some(Of(SumNums(Floats(distances))));
        }
      } else {
        value := Some(NA);
      }
    }
  }

  lemma HitStep(lms: seq<Landmark>, j: nat)
    requires j < |lms|
    ensures forall a :: Hit(a, lms[..j + 1]) <==> Hit(a, lms[..j]) || (lms[j].name == a && a != "count")
  {
    assert lms[..j + 1] == lms[..j] + [lms[j]];
  }

  /** The scan of `get_aspect_values` for one variable. */
  method Select(aspects: seq<Evaluated>, variable: string, selected: Option<Evaluated>) returns (r: Option<Evaluated>)
    ensures r == Pick(aspects, variable, selected)
  {
    r := selected;
    for k := 0 to |aspects|
      invariant r == Pick(aspects[..k], variable, selected)
    {
      assert aspects[..k + 1][..k] == aspects[..k];
      if variable == aspects[k].name {
        r := Some(aspects[k]);
      }
    }
    assert aspects[..|aspects|] == aspects;
  }

  /** The loop of `calculate` for a distance aspect: the distance from each
      landmark to the next, skipping the last. */
  method Distances(lms: seq<Landmark>, host: Host) returns (distances: seq<real>)
    ensures distances == Legs(lms, host)
  {
    distances := [];
    var n := |lms|;
    for i := 0 to n
      invariant |distances| == if i < n - 1 then i else |Legs(lms, host)|
      invariant forall k :: 0 <= k < |distances| ==> distances[k] == Distance(lms[k], lms[k + 1], host)
    {
      if !(i + 2 > n) {
        distances := distances + [Distance(lms[i], lms[i + 1], host)];
      }
    }
  }

  /** The outcome of a config line, read off the flags `check_math` and
      `connect_landmarks` set on the aspect. */
  lemma OutcomeOfParts(names: seq<string>, aspectName: string, lms: seq<Landmark>, aspects: seq<Evaluated>, host: Host,
                       math: bool, equation: string)
    requires MathPart(names, aspects, host).Ok?
    requires math <==> MathPart(names, aspects, host).value.Some?
    requires math ==> equation == MathPart(names, aspects, host).value.value.0
    ensures var connected := Connected(names, aspectName, lms);
      Outcome(names, aspectName, lms, aspects, host) ==
        Ok(if CountHit(names, aspectName, lms) then Of(Int(|connected|))
           else if math then host.evaluate(equation)
           else if |connected| == |names| then ChainValue(connected, host)
           else NA)
  {
  }

  /** One aspect evaluated on one image, as the loop of `parse_config` does
      it: the value is the outcome of the aspect's config line on the
      image's landmarks and the aspects evaluated before it. */
  method Evaluate(id: string, name: string, names: seq<string>, image: Image, host: Host) returns (r: Result<Aspect>)
    requires image.Valid()
    ensures var outcome := Outcome(names, name, image.landmarks.Items(), image.aspects.Items(), host);
      && (r.Ok? <==> outcome.Ok?)
      && (r.Err? ==> r.error == outcome.error)
      && (r.Ok? ==> fresh(r.value) && r.value.id == id && r.value.name == name
                    && r.value.landmarksNames == names && r.value.value == Some(outcome.value))
  {
    ghost var lms := image.landmarks.Items();
    var aspect := new Aspect(id, name);
    aspect.landmarksNames := names;
    var isMath := aspect.CheckMath(image, host);
    if isMath.Err? {
      return Err(isMath.error);
    }
    OutcomeOfParts(names, name, lms, image.aspects.Items(), host, aspect.math, aspect.equation);
    Measure(aspect, image, host);
    return Ok(aspect);
  }

  /** `aspect.connect_landmarks(image)` then `aspect.calculate()` on an
      aspect not connected before: the count, the equation, the chain, or
      NA. */
  method Measure(aspect: Aspect, image: Image, host: Host)
    requires image.landmarks.Valid() && aspect.landmarks == [] && !aspect.meristic
    modifies aspect`landmarks, aspect`meristic, aspect`value
    ensures var names, lms := aspect.landmarksNames, image.landmarks.Items();
      var connected := Connected(names, aspect.name, lms);
      aspect.value == Some(if CountHit(names, aspect.name, lms) then Of(Int(|connected|))
                           else if aspect.math then host.evaluate(aspect.equation)
                           else if |connected| == |names| then ChainValue(connected, host)
                           else NA)
  {
    aspect.ConnectLandmarks(image);
    assert aspect.landmarks == Connected(aspect.landmarksNames, aspect.name, image.landmarks.Items());
    aspect.Calculate(host);
  }
}
