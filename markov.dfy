/** The per-node traffic Markov chain of abm.py: the three traffic states,
    the transition matrix, the categorical draw that picks a successor state
    from one row of the matrix, and the trajectory generator.

    Randomness is a parameter: each draw is a uniform variate in [0, 1)
    supplied by the caller, and the draw maps it to a state by the inverse
    cumulative distribution of the row, as a categorical sampler does. */
module Markov {

  /** A traffic state: 0 normal, 1 suspicious, 2 malicious. */
  type State = s: int | 0 <= s < 3

  /** One variate of the random source, uniform over [0, 1). */
  type Uniform = u: real | 0.0 <= u < 1.0

  /** A probability distribution over the three states: one row of the
      transition matrix, which the categorical draw accepts. */
  type Row = r: seq<real> | |r| == 3 && r[0] >= 0.0 && r[1] >= 0.0 && r[2] >= 0.0
                            && r[0] + r[1] + r[2] == 1.0
    witness [1.0, 0.0, 0.0]

  /** A 3 x 3 row-stochastic transition matrix; row i is the distribution
      of the next state when the current state is i. */
  type Matrix = m: seq<Row> | |m| == 3
    witness var r: Row := [1.0, 0.0, 0.0]; [r, r, r]

  /** `None` stands for the IndexError that Python raises. */
  datatype Option<T> = None | Some(value: T)

  /** The module-level matrix the simulation is run with. */
  const DefaultMatrix: Matrix := [[0.7, 0.2, 0.1], [0.4, 0.5, 0.1], [0.1, 0.3, 0.6]]

  function Sum(s: seq<real>): real
  {
    if s == [] then 0.0 else Sum(s[..|s| - 1]) + s[|s| - 1]
  }

  /** Probability that the draw lands on a state below i. */
  function Cdf(row: Row, i: nat): real
    requires i <= 3
  {
    Sum(row[..i])
  }

  lemma CdfValues(row: Row)
    ensures Cdf(row, 0) == 0.0 && Cdf(row, 1) == row[0]
    ensures Cdf(row, 2) == row[0] + row[1] && Cdf(row, 3) == 1.0
  {
    assert row[..0] == [];
    assert row[..1][..0] == [];
    assert row[..2][..1] == row[..1];
    assert row[..3][..2] == row[..2];
  }

  /** The categorical draw: the uniform variate `u` selects the first state
      whose cumulative probability exceeds `u`. A state whose probability
      in `row` is zero is never chosen. */
  function Choose(row: Row, u: Uniform): (s: State)
    ensures row[s] > 0.0
  {
    if u < row[0] then 0 else if u < row[0] + row[1] then 1 else 2
  }

  /** The draw is distributed as `row`: the variates that select state i
      form the interval [Cdf(i), Cdf(i + 1)), whose width is row[i]. */
  lemma ChooseInterval(row: Row, u: Uniform, i: State)
    ensures Cdf(row, i + 1) - Cdf(row, i) == row[i]
    ensures Choose(row, u) == i <==> Cdf(row, i) <= u < Cdf(row, i + 1)
  {
    CdfValues(row);
  }

  /** Every state of positive probability in `row` can be drawn. */
  lemma ChooseReaches(row: Row, i: State)
    requires row[i] > 0.0
    ensures exists u: Uniform :: Choose(row, u) == i
  {
    CdfValues(row);
    var u: Uniform := Cdf(row, i);
    ChooseInterval(row, u, i);
  }

  /** Row selection `transition_matrix[current]`: Python indexing accepts
      -3 .. 2, a negative index counting from the end, and raises
      IndexError for any other integer. */
  function RowIndex(current: int): (r: Option<State>)
    ensures r.Some? <==> -3 <= current < 3
    ensures r.Some? ==> r.value == current % 3
  {
    if 0 <= current < 3 then Some(current)
    else if -3 <= current < 0 then Some(current + 3)
    else None
  }

  /** `next_state`: one transition from `current`, drawn from the row of
      `m` that `current` selects, using the variate `u`. */
  function NextState(current: int, m: Matrix, u: Uniform): (r: Option<State>)
    ensures r.Some? <==> -3 <= current < 3
    ensures r.Some? ==> m[current % 3][r.value] > 0.0
  {
    match RowIndex(current)
    case None => None
    case Some(i) => Some(Choose(m[i], u))
  }

  /** `generate_states`: the list that starts at `initial` and is extended
      `steps - 1` times by a transition from its last element, the k-th
      transition using the variate `us[k]`. */
  method GenerateStates(initial: int, steps: int, m: Matrix, us: seq<Uniform>)
    returns (r: Option<seq<int>>)
    requires |us| >= steps - 1
    ensures r.None? <==> steps >= 2 && !(-3 <= initial < 3)
    ensures r.Some? ==> |r.value| == (if steps < 1 then 1 else steps) && r.value[0] == initial
    ensures r.Some? ==> forall k :: 1 <= k < |r.value| ==>
              NextState(r.value[k - 1], m, us[k - 1]) == Some(r.value[k])
    ensures r.Some? ==> forall k :: 1 <= k < |r.value| ==> 0 <= r.value[k] < 3
  {
    var states := [initial];
    var k := 0;
    while k < steps - 1
      invariant 0 <= k && (k == 0 || k <= steps - 1)
      invariant |states| == k + 1 && states[0] == initial
      invariant forall j :: 1 <= j <= k ==> NextState(states[j - 1], m, us[j - 1]) == Some(states[j])
      invariant forall j :: 1 <= j <= k ==> 0 <= states[j] < 3
      invariant k >= 1 ==> -3 <= initial < 3
    {
      var next := NextState(states[k], m, us[k]);
      if next.None? {
        return None;
      }
      states := states + [next.value];
      k := k + 1;
    }
    return Some(states);
  }
}
