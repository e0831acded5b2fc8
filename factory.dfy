/** The factory machines (src/bin/10.rs). Each input line describes one
    machine: its indicator lights as `[.##.]` (the pattern to reach), its
    buttons as `(1,3)` lists of the lights they toggle, and its joltage
    counters as `{3,5,4,7}`. Lights are kept as bits of a 16-bit word and a
    button press is an exclusive or. Part one sums, over the machines, the
    fewest presses that light the pattern, found by a breadth-first search
    from all lights off. */
module Factory {
  import opened Text
  import opened Arith

  /** The lights live in a `u16`. */
  const LIGHTS: nat := 16
  const LIGHTS_LIMIT: nat := 0x1_0000

  lemma LightsLimit()
    ensures Pow2(LIGHTS) == LIGHTS_LIMIT
  {
    Pow2Values();
    Pow2Add(8, 8);
  }

  // ---------------------------------------------------------------- parsing

  /** The text between the first and the last byte (`s[1..s.len() - 1]`);
      the source panics on fewer than two bytes. */
  function Inner(s: string): (r: Option<string>)
    ensures r.Some? <==> |s| >= 2
    ensures r.Some? ==> |r.value| == |s| - 2
    ensures r.Some? ==> forall i :: 0 <= i < |r.value| ==> r.value[i] == s[i + 1]
  {
    if |s| < 2 then None else Some(s[1..|s| - 1])
  }

  function LightValue(c: char): (x: Option<nat>)
    ensures x.Some? <==> c == '.' || c == '#'
    ensures x.Some? ==> x.value == (if c == '#' then 1 else 0)
  {
    if c == '.' then Some(0) else if c == '#' then Some(1) else None
  }

  /** The fold of `parse_schematics` over `cs`: character `i` is shifted to
      bit `i` and or-ed in. `None` where the source panics: a character
      other than `.` and `#`, or, in a debug build (the shift amount is
      masked in release), a shift of the 16-bit word by 16 or more.
      So a pattern is read exactly when it has at most sixteen lights, each
      `.` or `#`. */
  function LightsFold(cs: string): (r: Option<nat>)
    ensures r.Some? <==> IsLights(cs)
  {
    if cs == [] then Some(0)
    else
      var i := |cs| - 1;
      assert cs == cs[..i] + [cs[i]];
      assert forall c <- cs :: c in cs[..i] || c == cs[i];
      assert forall c <- cs[..i] :: c in cs;
      assert cs[i] in cs;
      match (LightsFold(cs[..i]), LightValue(cs[i]))
      case (Some(acc), Some(x)) => if i < LIGHTS then Some(BitOr(acc, x * Pow2(i))) else None
      case _ => None
  }

  function Schematic(s: string): Option<nat>
  {
    match Inner(s)
    case None => None
    case Some(cs) => LightsFold(cs)
  }

  predicate IsLights(cs: string)
  {
    |cs| <= LIGHTS && forall c <- cs :: c == '.' || c == '#'
  }

  /** Or-ing light `i` into the lights below it. */
  lemma {:induction false} LightsStep(acc: nat, x: nat, i: nat)
    requires acc < Pow2(i) && x <= 1
    ensures BitOr(acc, x * Pow2(i)) < Pow2(i + 1)
    ensures forall j: nat :: Bit(BitOr(acc, x * Pow2(i)), j) <==> Bit(acc, j) || (x == 1 && j == i)
  {
    var m := BitOr(acc, x * Pow2(i));
    OrSymmetric(acc, x * Pow2(i));
    OrShifted(x, i, acc);
    assert m == x * Pow2(i) + acc;
    forall j: nat ensures Bit(m, j) <==> Bit(acc, j) || (x == 1 && j == i) {
      BitOfOr(acc, x * Pow2(i), j);
      if x == 0 {
        BitOfZero(j);
      } else {
        BitOfPow2(i, j);
      }
    }
  }

  /** Bit `i` of the pattern is set iff light `i` is `#`. */
  lemma {:induction false} LightsFoldBits(cs: string)
    requires LightsFold(cs).Some?
    ensures LightsFold(cs).value < Pow2(|cs|)
    ensures forall i: nat :: Bit(LightsFold(cs).value, i) <==> i < |cs| && cs[i] == '#'
  {
    if cs == [] {
      forall i: nat ensures !Bit(0, i) {
        BitOfZero(i);
      }
    } else {
      var i := |cs| - 1;
      var pre := cs[..i];
      LightsFoldBits(pre);
      var acc := LightsFold(pre).value;
      var x := LightValue(cs[i]).value;
      LightsStep(acc, x, i);
      assert forall j :: 0 <= j < i ==> cs[j] == pre[j];
    }
  }

  /** The fold of `parse_button_p1`: `1 << x as u16` or-ed in for every
      listed `x`. The cast keeps the low 16 bits of `x`; in a debug build
      (the shift amount is masked in release) the source panics when what is
      left is 16 or more. So a button is read exactly when
      every index, cut to 16 bits, names one of the sixteen lights. */
  function ButtonFold(xs: seq<nat>): (r: Option<nat>)
    ensures r.Some? <==> forall k :: 0 <= k < |xs| ==> xs[k] % LIGHTS_LIMIT < LIGHTS
  {
    if xs == [] then Some(0)
    else
      assert forall k :: 0 <= k < |xs| - 1 ==> xs[k] == xs[..|xs| - 1][k];
      var shift := xs[|xs| - 1] % LIGHTS_LIMIT;
      match ButtonFold(xs[..|xs| - 1])
      case None => None
      case Some(acc) => if shift < LIGHTS then Some(BitOr(acc, Pow2(shift))) else None
  }

  function Button(b: string): Option<nat>
  {
    match Inner(b)
    case None => None
    case Some(inner) =>
      match ParseAll(Split(inner, ','))
      case None => None
      case Some(xs) => ButtonFold(xs)
  }

  /** The lights a list of indices names, after the cast to 16 bits. */
  function Toggled(xs: seq<nat>): set<nat>
  {
    set k | 0 <= k < |xs| :: xs[k] % LIGHTS_LIMIT
  }

  /** The bits of a button that is read are the lights it names. */
  lemma {:induction false} ButtonFoldBits(xs: seq<nat>)
    requires ButtonFold(xs).Some?
    ensures ButtonFold(xs).value < LIGHTS_LIMIT
    ensures forall i: nat :: Bit(ButtonFold(xs).value, i) <==> i in Toggled(xs)
  {
    if xs == [] {
      LightsLimit();
      forall i: nat ensures !Bit(0, i) {
        BitOfZero(i);
      }
    } else {
      var n := |xs| - 1;
      var pre := xs[..n];
      ButtonFoldBits(pre);
      ToggledSnoc(xs);
      ButtonStep(ButtonFold(pre).value, xs[n] % LIGHTS_LIMIT, Toggled(pre));
    }
  }

  lemma {:induction false} ToggledSnoc(xs: seq<nat>)
    requires xs != []
    ensures Toggled(xs) == Toggled(xs[..|xs| - 1]) + {xs[|xs| - 1] % LIGHTS_LIMIT}
  {
    var n := |xs| - 1;
    var pre := xs[..n];
    assert forall k :: 0 <= k < n ==> xs[k] == pre[k];
    assert forall k :: 0 <= k < n ==> xs[k] % LIGHTS_LIMIT in Toggled(pre);
  }

  /** Or-ing in the bit of one more light. */
  lemma {:induction false} ButtonStep(acc: nat, shift: nat, lights: set<nat>)
    requires acc < LIGHTS_LIMIT && shift < LIGHTS
    requires forall i: nat :: Bit(acc, i) <==> i in lights
    ensures BitOr(acc, Pow2(shift)) < LIGHTS_LIMIT
    ensures forall i: nat :: Bit(BitOr(acc, Pow2(shift)), i) <==> i in lights + {shift}
  {
    LightsLimit();
    Pow2Below(shift, LIGHTS);
    OrBelow(acc, Pow2(shift), LIGHTS);
    forall i: nat ensures Bit(BitOr(acc, Pow2(shift)), i) <==> i in lights + {shift} {
      BitOfOr(acc, Pow2(shift), i);
      BitOfPow2(shift, i);
    }
  }

  /** The words of a machine line that are buttons: those after the
      pattern, up to the first one not starting with `(`. */
  function ButtonWords(words: seq<string>): (bs: seq<string>)
    ensures |bs| <= |words|
    ensures forall k :: 0 <= k < |bs| ==> bs[k] == words[k] && |bs[k]| > 0 && bs[k][0] == '('
  {
    if words == [] || |words[0]| == 0 || words[0][0] != '(' then []
    else [words[0]] + ButtonWords(words[1..])
  }

  function Buttons(words: seq<string>): (r: Option<seq<nat>>)
    ensures r.Some? ==> |r.value| == |words|
    ensures r.Some? ==> forall k :: 0 <= k < |words| ==> Some(r.value[k]) == Button(words[k])
  {
    if words == [] then Some([])
    else
      match (Button(words[0]), Buttons(words[1..]))
      case (Some(b), Some(bs)) =>
        assert forall k :: 1 <= k < |words| ==> words[k] == words[1..][k - 1];
        Some([b] + bs)
      case _ => None
  }

  /** A machine for part one: the target pattern and the buttons. */
  datatype Machine = Machine(target: nat, buttons: seq<nat>)

  function ParseMachine(line: string): Option<Machine>
  {
    var words := Split(line, ' ');
    match Schematic(words[0])
    case None => None
    case Some(target) =>
      match Buttons(ButtonWords(words[1..]))
      case None => None
      case Some(bs) => Some(Machine(target, bs))
  }

  /** Lines up to the first empty one (`take_while`). */
  function LeadingLines(ls: seq<string>): (r: seq<string>)
    ensures |r| <= |ls|
    ensures forall k :: 0 <= k < |r| ==> r[k] == ls[k] && r[k] != []
  {
    if ls == [] || ls[0] == [] then [] else [ls[0]] + LeadingLines(ls[1..])
  }

  function ParseMachines(ls: seq<string>): (r: Option<seq<Machine>>)
    ensures r.Some? ==> |r.value| == |ls|
    ensures r.Some? ==> forall k :: 0 <= k < |ls| ==> Some(r.value[k]) == ParseMachine(ls[k])
  {
    if ls == [] then Some([])
    else
      match (ParseMachine(ls[0]), ParseMachines(ls[1..]))
      case (Some(m), Some(ms)) =>
        assert forall k :: 1 <= k < |ls| ==> ls[k] == ls[1..][k - 1];
        Some([m] + ms)
      case _ => None
  }

  /** A parsed machine has a pattern and buttons that fit the 16-bit word. */
  predicate Fits(m: Machine)
  {
    m.target < LIGHTS_LIMIT && forall k :: 0 <= k < |m.buttons| ==> m.buttons[k] < LIGHTS_LIMIT
  }

  lemma ParsedFits(line: string)
    requires ParseMachine(line).Some?
    ensures Fits(ParseMachine(line).value)
  {
    var words := Split(line, ' ');
    var cs := Inner(words[0]).value;
    LightsFoldBits(cs);
    LightsLimit();
    Pow2Monotone(|cs|, LIGHTS);
    var bws := ButtonWords(words[1..]);
    var bs := Buttons(bws).value;
    forall k | 0 <= k < |bs| ensures bs[k] < LIGHTS_LIMIT {
      var inner := Inner(bws[k]).value;
      ButtonFoldBits(ParseAll(Split(inner, ',')).value);
    }
  }

  // ---------------------------------------------------------------- search

  /** Indices into `buttons`, the buttons pressed in turn. */
  predicate ValidPresses(buttons: seq<nat>, presses: seq<nat>)
  {
    forall k :: 0 <= k < |presses| ==> presses[k] < |buttons|
  }

  /** The lights after pressing the buttons `presses` in turn, from all off. */
  function Pressed(buttons: seq<nat>, presses: seq<nat>): nat
    requires ValidPresses(buttons, presses)
  {
    if presses == [] then 0
    else
      var n := |presses| - 1;
      assert ValidPresses(buttons, presses[..n]) by {
        assert forall k :: 0 <= k < n ==> presses[..n][k] == presses[k];
      }
      BitXor(Pressed(buttons, presses[..n]), buttons[presses[n]])
  }

  /** `d` presses can light the pattern `target`, and no fewer can. */
  ghost predicate IsFewest(buttons: seq<nat>, target: nat, d: nat)
  {
    && (exists ps :: ValidPresses(buttons, ps) && |ps| == d && Pressed(buttons, ps) == target)
    && (forall ps :: ValidPresses(buttons, ps) && Pressed(buttons, ps) == target ==> d <= |ps|)
  }

  /** The fewest presses are well defined. */
  lemma FewestUnique(buttons: seq<nat>, target: nat, d: nat, e: nat)
    requires IsFewest(buttons, target, d) && IsFewest(buttons, target, e)
    ensures d == e
  {
    var ps :| ValidPresses(buttons, ps) && |ps| == d && Pressed(buttons, ps) == target;
    var qs :| ValidPresses(buttons, qs) && |qs| == e && Pressed(buttons, qs) == target;
  }

  /** A queue entry `(lights, depth)` with the presses that reach it. */
  ghost predicate Reaches(buttons: seq<nat>, path: seq<nat>, entry: (nat, nat))
  {
    ValidPresses(buttons, path) && |path| == entry.1 && Pressed(buttons, path) == entry.0
  }

  /** Every queue entry is reached by its path. */
  ghost predicate Sound(buttons: seq<nat>, q: seq<(nat, nat)>, paths: seq<seq<nat>>)
  {
    |paths| == |q| && forall i :: 0 <= i < |q| ==> Reaches(buttons, paths[i], q[i])
  }

  /** The queue holds depths `cur` then `cur + 1`, in order. */
  ghost predicate Layered(q: seq<(nat, nat)>, cur: nat)
  {
    && (forall i, j :: 0 <= i <= j < |q| ==> q[i].1 <= q[j].1)
    && (forall i :: 0 <= i < |q| ==> cur <= q[i].1 <= cur + 1 && q[i].0 < LIGHTS_LIMIT)
  }

  /** The expanded states: each recorded with the depth it was expanded at,
      none deeper than `cur`, the pattern not among them. */
  ghost predicate Settled(target: nat, visited: set<nat>, dist: map<nat, nat>, cur: nat)
  {
    && dist.Keys == visited
    && target !in visited
    && (forall v <- visited :: v < LIGHTS_LIMIT && dist[v] <= cur)
    && (0 in visited ==> dist[0] == 0)
  }

  /** Every press from an expanded state leads to a state expanded at most
      one level deeper, or is waiting in the queue one level deeper. */
  ghost predicate Expanded(buttons: seq<nat>, visited: set<nat>, dist: map<nat, nat>, q: seq<(nat, nat)>)
    requires dist.Keys == visited
  {
    forall v, k :: v in visited && 0 <= k < |buttons| ==>
      var w := BitXor(v, buttons[k]);
      (w in visited && dist[w] <= dist[v] + 1) || (w, dist[v] + 1) in q
  }

  /** The invariant of the breadth-first search. */
  ghost predicate Searching(buttons: seq<nat>, target: nat, visited: set<nat>, dist: map<nat, nat>,
                            q: seq<(nat, nat)>, paths: seq<seq<nat>>, cur: nat)
  {
    && Sound(buttons, q, paths)
    && Layered(q, cur)
    && Settled(target, visited, dist, cur)
    && (0 !in visited ==> (0, 0) in q)
    && Expanded(buttons, visited, dist, q)
    && |visited| <= LIGHTS_LIMIT
  }

  predicate Below(buttons: seq<nat>)
  {
    forall k :: 0 <= k < |buttons| ==> buttons[k] < LIGHTS_LIMIT
  }

  lemma SearchStarts(buttons: seq<nat>, target: nat)
    ensures Searching(buttons, target, {}, map[], [(0, 0)], [[]], 0)
  {
    assert Pressed(buttons, []) == 0;
  }

  /** A state reached by some presses is expanded no deeper than their
      number, or the queue's front is no deeper than it. */
  lemma {:induction false} Frontier(buttons: seq<nat>, target: nat, visited: set<nat>, dist: map<nat, nat>,
                                    q: seq<(nat, nat)>, paths: seq<seq<nat>>, cur: nat, ps: seq<nat>)
    requires Searching(buttons, target, visited, dist, q, paths, cur)
    requires ValidPresses(buttons, ps)
    ensures (Pressed(buttons, ps) in visited && dist[Pressed(buttons, ps)] <= |ps|) || (q != [] && q[0].1 <= |ps|)
  {
    if ps == [] {
      if 0 !in visited {
        var i :| 0 <= i < |q| && q[i] == (0, 0);
        assert q[0].1 <= q[i].1;
      }
    } else {
      var n := |ps| - 1;
      var pre := ps[..n];
      assert forall k :: 0 <= k < n ==> pre[k] == ps[k];
      Frontier(buttons, target, visited, dist, q, paths, cur, pre);
      var y := Pressed(buttons, pre);
      var x := BitXor(y, buttons[ps[n]]);
      assert x == Pressed(buttons, ps);
      if y in visited && dist[y] <= n && !(x in visited && dist[x] <= |ps|) {
        assert (x, dist[y] + 1) in q;
        var i :| 0 <= i < |q| && q[i] == (x, dist[y] + 1);
        assert q[0].1 <= q[i].1;
      }
    }
  }

  /** Popping an entry whose state is already expanded. */
  lemma SkipStep(buttons: seq<nat>, target: nat, visited: set<nat>, dist: map<nat, nat>,
                 q: seq<(nat, nat)>, paths: seq<seq<nat>>, cur: nat)
    requires Searching(buttons, target, visited, dist, q, paths, cur)
    requires q != [] && q[0].0 in visited
    ensures Searching(buttons, target, visited, dist, q[1..], paths[1..], q[0].1)
  {
    var d := q[0].1;
    assert forall i :: 1 <= i < |q| ==> q[i] == q[1..][i - 1] && paths[i] == paths[1..][i - 1];
    forall v, k | v in visited && 0 <= k < |buttons|
      ensures var w := BitXor(v, buttons[k]);
        (w in visited && dist[w] <= dist[v] + 1) || (w, dist[v] + 1) in q[1..]
    {
      var w := BitXor(v, buttons[k]);
      if !(w in visited && dist[w] <= dist[v] + 1) {
        var i :| 0 <= i < |q| && q[i] == (w, dist[v] + 1);
        assert i != 0;
      }
    }
  }

  /** The entries pushed when `lights` is expanded at `depth`: one per
      button, in order. */
  function Neighbours(lights: nat, depth: nat, buttons: seq<nat>, n: nat): (r: seq<(nat, nat)>)
    requires n <= |buttons|
    ensures |r| == n
    ensures forall k :: 0 <= k < n ==> r[k] == (BitXor(lights, buttons[k]), depth + 1)
  {
    seq(n, k requires 0 <= k < n => (BitXor(lights, buttons[k]), depth + 1))
  }

  ghost function Extended(path: seq<nat>, n: nat): (r: seq<seq<nat>>)
    ensures |r| == n
    ensures forall k :: 0 <= k < n ==> r[k] == path + [k]
  {
    seq(n, k requires 0 <= k < n => path + [k])
  }

  /** Expanding the front entry, a state not expanded before and not the
      pattern, and queueing one press of every button from it. */
  lemma VisitStep(buttons: seq<nat>, target: nat, visited: set<nat>, dist: map<nat, nat>,
                  q: seq<(nat, nat)>, paths: seq<seq<nat>>, cur: nat)
    requires Below(buttons)
    requires Searching(buttons, target, visited, dist, q, paths, cur)
    requires q != [] && q[0].0 !in visited && q[0].0 != target
    ensures var (l, d) := q[0];
      Searching(buttons, target, visited + {l}, dist[l := d],
                q[1..] + Neighbours(l, d, buttons, |buttons|),
                paths[1..] + Extended(paths[0], |buttons|), d)
    ensures |visited + {q[0].0}| == |visited| + 1
  {
    var (l, d) := q[0];
    var visited', dist' := visited + {l}, dist[l := d];
    var q' := q[1..] + Neighbours(l, d, buttons, |buttons|);
    var paths' := paths[1..] + Extended(paths[0], |buttons|);
    VisitSound(buttons, q, paths);
    VisitLayered(buttons, q, cur);
    VisitExpanded(buttons, visited, dist, q, cur);
    CardBelow(visited', LIGHTS_LIMIT);
    assert 0 in visited' by {
      if 0 !in visited {
        var i :| 0 <= i < |q| && q[i] == (0, 0);
        assert q[0].1 <= q[i].1 && Reaches(buttons, paths[0], q[0]);
        assert paths[0] == [];
      }
    }
  }

  lemma VisitSound(buttons: seq<nat>, q: seq<(nat, nat)>, paths: seq<seq<nat>>)
    requires Sound(buttons, q, paths) && q != []
    ensures Sound(buttons, q[1..] + Neighbours(q[0].0, q[0].1, buttons, |buttons|),
                  paths[1..] + Extended(paths[0], |buttons|))
  {
    var (l, d) := q[0];
    var path := paths[0];
    var ns, es := Neighbours(l, d, buttons, |buttons|), Extended(path, |buttons|);
    forall k | 0 <= k < |buttons| ensures Reaches(buttons, es[k], ns[k]) {
      var p := path + [k];
      assert p[..|path|] == path;
      assert forall j :: 0 <= j < |path| ==> p[j] == path[j];
    }
    var q', paths' := q[1..] + ns, paths[1..] + es;
    forall i | 0 <= i < |q'| ensures Reaches(buttons, paths'[i], q'[i]) {
      if i < |q| - 1 {
        assert q'[i] == q[i + 1] && paths'[i] == paths[i + 1];
      } else {
        assert q'[i] == ns[i - (|q| - 1)] && paths'[i] == es[i - (|q| - 1)];
      }
    }
  }

  lemma VisitLayered(buttons: seq<nat>, q: seq<(nat, nat)>, cur: nat)
    requires Below(buttons) && Layered(q, cur) && q != []
    ensures Layered(q[1..] + Neighbours(q[0].0, q[0].1, buttons, |buttons|), q[0].1)
  {
    var (l, d) := q[0];
    var ns := Neighbours(l, d, buttons, |buttons|);
    var q' := q[1..] + ns;
    LightsLimit();
    forall k | 0 <= k < |buttons| ensures ns[k].0 < LIGHTS_LIMIT {
      XorBelow(l, buttons[k], LIGHTS);
    }
    forall i | 0 <= i < |q'| ensures d <= q'[i].1 <= d + 1 && q'[i].0 < LIGHTS_LIMIT {
      if i < |q| - 1 {
        assert q'[i] == q[i + 1] && q[0].1 <= q[i + 1].1;
      }
    }
    forall i, j | 0 <= i <= j < |q'| ensures q'[i].1 <= q'[j].1 {
      if j < |q| - 1 {
        assert q'[i] == q[i + 1] && q'[j] == q[j + 1];
      }
    }
  }

  lemma VisitExpanded(buttons: seq<nat>, visited: set<nat>, dist: map<nat, nat>, q: seq<(nat, nat)>, cur: nat)
    requires dist.Keys == visited && Expanded(buttons, visited, dist, q)
    requires Layered(q, cur) && q != [] && q[0].0 !in visited
    requires forall v <- visited :: dist[v] <= cur
    ensures var (l, d) := q[0];
      (visited + {l}) == dist[l := d].Keys &&
      Expanded(buttons, visited + {l}, dist[l := d], q[1..] + Neighbours(l, d, buttons, |buttons|))
  {
    var (l, d) := q[0];
    var visited', dist' := visited + {l}, dist[l := d];
    var ns := Neighbours(l, d, buttons, |buttons|);
    var q' := q[1..] + ns;
    forall v, k | v in visited' && 0 <= k < |buttons|
      ensures var w := BitXor(v, buttons[k]);
        (w in visited' && dist'[w] <= dist'[v] + 1) || (w, dist'[v] + 1) in q'
    {
      var w := BitXor(v, buttons[k]);
      if v == l {
        assert q'[|q| - 1 + k] == ns[k];
      } else if !(w in visited && dist[w] <= dist[v] + 1) {
        var i :| 0 <= i < |q| && q[i] == (w, dist[v] + 1);
        if i == 0 {
          assert w == l && d <= dist[v] + 1;
        } else {
          assert q'[i - 1] == q[i];
        }
      }
    }
  }

  /** The inner loop of `bfs_p1`: one entry per button pushed at the back. */
  method PushPresses(q: seq<(nat, nat)>, ghost paths: seq<seq<nat>>, lights: nat, depth: nat,
                     ghost path: seq<nat>, buttons: seq<nat>)
    returns (q': seq<(nat, nat)>, ghost paths': seq<seq<nat>>)
    ensures q' == q + Neighbours(lights, depth, buttons, |buttons|)
    ensures paths' == paths + Extended(path, |buttons|)
  {
    q', paths' := q, paths;
    for k := 0 to |buttons|
      invariant q' == q + Neighbours(lights, depth, buttons, k)
      invariant paths' == paths + Extended(path, k)
    {
      q' := q' + [(BitXor(lights, buttons[k]), depth + 1)];
      paths' := paths' + [path + [k]];
      assert Neighbours(lights, depth, buttons, k + 1)
          == Neighbours(lights, depth, buttons, k) + [(BitXor(lights, buttons[k]), depth + 1)];
      assert Extended(path, k + 1) == Extended(path, k) + [path + [k]];
    }
  }

  /** `bfs_p1`: a breadth-first search over light states from all off, each
      state expanded at most once. It returns the depth at which the pattern
      is first popped, which is the fewest presses; `None` where the source
      reaches `unreachable!`, which happens only when no presses light the
      pattern. */
  method FewestPresses(target: nat, buttons: seq<nat>) returns (r: Option<nat>)
    requires Below(buttons)
    ensures r.Some? ==> IsFewest(buttons, target, r.value)
    ensures r.None? ==> forall ps :: ValidPresses(buttons, ps) ==> Pressed(buttons, ps) != target
  {
    var visited: set<nat> := {};
    var q: seq<(nat, nat)> := [(0, 0)];
    ghost var dist: map<nat, nat> := map[];
    ghost var paths: seq<seq<nat>> := [[]];
    ghost var cur := 0;
    SearchStarts(buttons, target);
    while q != []
      invariant Searching(buttons, target, visited, dist, q, paths, cur)
      decreases LIGHTS_LIMIT - |visited|, |q|
    {
      var (lights, depth) := q[0];
      ghost var q0, paths0 := q, paths;
      q, paths := q[1..], paths[1..];
      if lights == target {
        FoundFewest(buttons, target, visited, dist, q0, paths0, cur);
        return Some(depth);
      }
      if lights in visited {
        SkipStep(buttons, target, visited, dist, q0, paths0, cur);
        cur := depth;
        continue;
      }
      VisitStep(buttons, target, visited, dist, q0, paths0, cur);
      visited := visited + {lights};
      dist := dist[lights := depth];
      q, paths := PushPresses(q, paths, lights, depth, paths0[0], buttons);
      cur := depth;
    }
    forall ps | ValidPresses(buttons, ps) ensures Pressed(buttons, ps) != target {
      Frontier(buttons, target, visited, dist, q, paths, cur, ps);
    }
    return None;
  }

  /** The pattern at the front of the queue is reached at the front's depth
      and at no smaller one. */
  lemma FoundFewest(buttons: seq<nat>, target: nat, visited: set<nat>, dist: map<nat, nat>,
                    q: seq<(nat, nat)>, paths: seq<seq<nat>>, cur: nat)
    requires Searching(buttons, target, visited, dist, q, paths, cur)
    requires q != [] && q[0].0 == target
    ensures IsFewest(buttons, target, q[0].1)
  {
    assert Reaches(buttons, paths[0], q[0]);
    forall ps | ValidPresses(buttons, ps) && Pressed(buttons, ps) == target
      ensures q[0].1 <= |ps|
    {
      Frontier(buttons, target, visited, dist, q, paths, cur, ps);
    }
  }

  // ---------------------------------------------------------------- part one

  /** `ds` holds the fewest presses of every machine in `ms`. */
  ghost predicate Answers(ms: seq<Machine>, ds: seq<nat>)
  {
    |ds| == |ms| && forall i :: 0 <= i < |ms| ==> IsFewest(ms[i].buttons, ms[i].target, ds[i])
  }

  ghost predicate Unsolvable(m: Machine)
  {
    forall ps :: ValidPresses(m.buttons, ps) ==> Pressed(m.buttons, ps) != m.target
  }

  /** The fewest presses of every machine are determined by the machines. */
  lemma AnswersUnique(ms: seq<Machine>, ds: seq<nat>, es: seq<nat>)
    requires Answers(ms, ds) && Answers(ms, es)
    ensures ds == es
  {
    forall i | 0 <= i < |ms| ensures ds[i] == es[i] {
      FewestUnique(ms[i].buttons, ms[i].target, ds[i], es[i]);
    }
  }

  /** The machines of part one: the lines before the first empty one. */
  function Machines(input: string): Option<seq<Machine>>
  {
    ParseMachines(LeadingLines(Lines(input)))
  }

  lemma MachinesFit(ls: seq<string>)
    requires ParseMachines(ls).Some?
    ensures forall i :: 0 <= i < |ls| ==> Fits(ParseMachines(ls).value[i])
  {
    forall i | 0 <= i < |ls| ensures Fits(ParseMachines(ls).value[i]) {
      ParsedFits(ls[i]);
    }
  }

  /** The sum of the fewest presses over `ms`, machine by machine; `None`
      as soon as one machine cannot be solved. */
  method SumFewest(ms: seq<Machine>) returns (r: Option<nat>)
    requires forall i :: 0 <= i < |ms| ==> Fits(ms[i])
    ensures r.Some? ==> exists ds :: Answers(ms, ds) && r.value == Sum(ds)
    ensures r.None? ==> exists i :: 0 <= i < |ms| && Unsolvable(ms[i])
  {
    var total := 0;
    ghost var ds: seq<nat> := [];
    for i := 0 to |ms|
      invariant Answers(ms[..i], ds) && total == Sum(ds)
    {
      var fewest := FewestPresses(ms[i].target, ms[i].buttons);
      if fewest.None? {
        assert Unsolvable(ms[i]);
        return None;
      }
      AnswersSnoc(ms, i, ds, fewest.value);
      total := total + fewest.value;
      ds := ds + [fewest.value];
    }
    assert ms[..|ms|] == ms;
    return Some(total);
  }

  lemma AnswersSnoc(ms: seq<Machine>, i: nat, ds: seq<nat>, d: nat)
    requires i < |ms| && Answers(ms[..i], ds) && IsFewest(ms[i].buttons, ms[i].target, d)
    ensures Answers(ms[..i + 1], ds + [d]) && Sum(ds + [d]) == Sum(ds) + d
  {
    SumSnoc(ds, d);
    var ms', ds' := ms[..i + 1], ds + [d];
    forall j | 0 <= j <= i ensures IsFewest(ms'[j].buttons, ms'[j].target, ds'[j]) {
      if j < i {
        assert ms'[j] == ms[..i][j] && ds'[j] == ds[j];
      }
    }
  }

  /** `part_one`: the fewest presses of every machine, summed. `None` where
      the source panics: a line it cannot parse, or a machine whose pattern
      no presses light. */
  method PartOne(input: string) returns (r: Option<nat>)
    ensures r.Some? ==> Machines(input).Some?
    ensures r.Some? ==> exists ds :: Answers(Machines(input).value, ds) && r.value == Sum(ds)
    ensures r.None? ==> (Machines(input).None? ||
      exists i :: 0 <= i < |Machines(input).value| && Unsolvable(Machines(input).value[i]))
  {
    var ls := LeadingLines(Lines(input));
    var parsed := ParseMachines(ls);
    if parsed.None? {
      return None;
    }
    MachinesFit(ls);
    r := SumFewest(parsed.value);
  }

  // ---------------------------------------------------------------- part two input

  /** Part two keeps its counters in a fixed array of twelve. */
  const MAX_JOLTS: nat := 12

  /** The numbers listed between the brackets, read as unsigned 64-bit
      numbers. */
  function Listed(s: string): Option<seq<nat>>
  {
    match Inner(s)
    case None => None
    case Some(inner) => ParseAll(Split(inner, ','))
  }

  /** Every listed number is below `limit`. */
  predicate ListedBelow(s: string, limit: nat)
  {
    Listed(s).Some? && forall k :: 0 <= k < |Listed(s).value| ==> Listed(s).value[k] < limit
  }

  /** Rust's `str::parse` into an unsigned type whose values are below
      `limit`. */
  function ParseBelow(s: string, limit: nat): (r: Option<nat>)
    ensures r.Some? <==> ParseU64(s).Some? && ParseU64(s).value < limit
    ensures r.Some? ==> r.value == ParseU64(s).value
  {
    match ParseU64(s)
    case None => None
    case Some(v) => if v < limit then Some(v) else None
  }

  /** `parse_button_p2`: a twelve-entry array with 1 at every listed index
      and 0 elsewhere. `None` where the source panics: a missing bracket, a
      piece that is not a `u8`, an index past the array. */
  method ButtonJolts(button: string) returns (r: Option<seq<nat>>)
    ensures r.Some? <==> ListedBelow(button, MAX_JOLTS)
    ensures r.Some? ==> |r.value| == MAX_JOLTS
    ensures r.Some? ==> forall j :: 0 <= j < MAX_JOLTS ==> r.value[j] == (if j in Listed(button).value then 1 else 0)
  {
    var inner := Inner(button);
    if inner.None? {
      return None;
    }
    var pieces := Split(inner.value, ',');
    var jolts := new nat[MAX_JOLTS](_ => 0);
    ghost var values: seq<nat> := [];
    for k := 0 to |pieces|
      invariant |values| == k
      invariant forall p :: 0 <= p < k ==> ParseU64(pieces[p]) == Some(values[p]) && values[p] < MAX_JOLTS
      invariant forall j :: 0 <= j < MAX_JOLTS ==> jolts[j] == if j in values then 1 else 0
    {
      var idx := ParseBelow(pieces[k], 0x100);
      if idx.None? || idx.value >= MAX_JOLTS {
        ListedFails(button, pieces, k, MAX_JOLTS);
        return None;
      }
      jolts[idx.value] := 1;
      values := values + [idx.value];
    }
    ListedValues(button, pieces, values);
    ListedBelowValues(button, values, MAX_JOLTS);
    return Some(jolts[..]);
  }

  /** A piece that does not parse below `limit` rules out `ListedBelow`. */
  lemma {:induction false} ListedFails(s: string, pieces: seq<string>, k: nat, limit: nat)
    requires Inner(s).Some? && pieces == Split(Inner(s).value, ',') && k < |pieces|
    requires ParseU64(pieces[k]).None? || ParseU64(pieces[k]).value >= limit
    ensures !ListedBelow(s, limit)
  {
    if Listed(s).Some? {
      assert Some(Listed(s).value[k]) == ParseU64(pieces[k]);
    }
  }

  /** Values that match every piece are the listed numbers. */
  lemma {:induction false} ListedValues(s: string, pieces: seq<string>, values: seq<nat>)
    requires Inner(s).Some? && pieces == Split(Inner(s).value, ',')
    requires |values| == |pieces|
    requires forall p :: 0 <= p < |pieces| ==> ParseU64(pieces[p]) == Some(values[p])
    ensures Listed(s) == Some(values)
  {
    assert Listed(s) == ParseAll(pieces);
    var xs := Listed(s).value;
    assert |xs| == |values|;
    forall p | 0 <= p < |xs| ensures xs[p] == values[p] {
      assert Some(xs[p]) == ParseU64(pieces[p]);
    }
    assert xs == values;
  }

  /** `parse_counters`: the `i`-th listed value at index `i`, 0 after the
      last one. `None` where the source panics: a missing bracket, a piece
      that is not a `u16`, more than twelve pieces. */
  method Counters(counter: string) returns (r: Option<seq<nat>>)
    ensures r.Some? <==> (ListedBelow(counter, 0x1_0000) && |Listed(counter).value| <= MAX_JOLTS)
    ensures r.Some? ==> |r.value| == MAX_JOLTS
    ensures r.Some? ==> forall j :: 0 <= j < MAX_JOLTS ==>
      r.value[j] == if j < |Listed(counter).value| then Listed(counter).value[j] else 0
  {
    var inner := Inner(counter);
    if inner.None? {
      return None;
    }
    var pieces := Split(inner.value, ',');
    var jolts := new nat[MAX_JOLTS](_ => 0);
    ghost var values: seq<nat> := [];
    for k := 0 to |pieces|
      invariant k <= MAX_JOLTS && |values| == k
      invariant forall p :: 0 <= p < k ==> ParseU64(pieces[p]) == Some(values[p]) && values[p] < 0x1_0000
      invariant forall j :: 0 <= j < MAX_JOLTS ==> jolts[j] == if j < k then values[j] else 0
    {
      var jolt := ParseBelow(pieces[k], 0x1_0000);
      if jolt.None? {
        ListedFails(counter, pieces, k, 0x1_0000);
        return None;
      }
      if k >= MAX_JOLTS {
        CountersOverflow(counter, pieces, k);
        return None;
      }
      jolts[k] := jolt.value;
      values := values + [jolt.value];
    }
    ListedValues(counter, pieces, values);
    ListedBelowValues(counter, values, 0x1_0000);
    return Some(jolts[..]);
  }

  lemma {:induction false} ListedBelowValues(s: string, values: seq<nat>, limit: nat)
    requires Listed(s) == Some(values) && forall p :: 0 <= p < |values| ==> values[p] < limit
    ensures ListedBelow(s, limit)
  {
  }

  /** More than twelve pieces do not fit the array. */
  lemma {:induction false} CountersOverflow(s: string, pieces: seq<string>, k: nat)
    requires Inner(s).Some? && pieces == Split(Inner(s).value, ',') && MAX_JOLTS <= k < |pieces|
    ensures Listed(s).Some? ==> |Listed(s).value| > MAX_JOLTS
  {
    if Listed(s).Some? {
      assert Listed(s) == ParseAll(pieces);
    }
  }
}
