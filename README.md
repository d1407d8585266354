# Markov-chain network traffic simulation

A Dafny model of the agent-based simulation in `abm.py`: a population of
network nodes, each of which moves between three traffic states (normal,
suspicious, malicious) by a Markov chain with one shared 3 x 3 transition
matrix. Each tick the model clears its traffic log and activates every node
once; an activated node draws its next state from the row of its current
state and appends a `{node, type}` record to the log.

Two sources of randomness become parameters:

- Each draw from a row is a uniform variate `u` in [0, 1) supplied by the
  caller. `Markov.Choose` turns it into a state by the inverse cumulative
  distribution of the row, which is how a categorical sampler selects.
- The scheduler's per-tick shuffle is a caller-supplied activation order: a
  list of node ids that is proved to be a permutation of `0 .. n-1`.

Files:

- `markov.dfy`, module `Markov`: states, rows, matrices, the draw,
  `next_state` (`NextState`) and `generate_states` (`GenerateStates`). The
  module-level matrix is `DefaultMatrix`. Its rows sum to exactly 1 over
  the reals, so it is a `Matrix`.
- `network.dfy`, module `Network`: traffic records and labels, activation
  orders, and the classes `Node` (`NetworkNode`) and `NetworkModel`. They
  hold mutable fields, as the Python objects do. `Node.Step` appends to the
  traffic log of the model it belongs to.

Notes on the code's behaviour:

- Nothing validates the transition matrix when the model is built. The only
  check is the one the sampler performs on each draw. The model puts that
  requirement in the types `Row` and `Matrix`.
- The node count is not required to be positive: `range(n_nodes)` with
  `n_nodes <= 0` builds no nodes (`Population`).
- A node's step returns nothing. It appends its record straight to the
  model's log.

## Model

| member | source | states |
|---|---|---|
| `Markov.Choose` | abm.py:16 | The drawn state always has positive probability in the row it is drawn from, so a zero-probability transition is never taken; the result is always a state in 0..2. |
| `Markov.ChooseInterval` | abm.py:16 | The variates that select state i are exactly the interval [Cdf(i), Cdf(i+1)), and that interval's width is row[i], so the draw follows the row's distribution. |
| `Markov.ChooseReaches` | abm.py:16 | Every state with positive probability in the row is drawn for some variate. |
| `Markov.RowIndex` | abm.py:16 | `transition_matrix[current]` is defined exactly for -3 <= current < 3 and then selects row `current % 3`, since negative indices count from the end; any other index is an IndexError. |
| `Markov.NextState` | abm.py:15-16 | `next_state` succeeds exactly when the index selects a row, and it then returns a state of positive probability in row `current % 3`. |
| `Markov.GenerateStates` | abm.py:18-22 | The trajectory starts with `initial` and has length max(steps, 1). Each later element is a `NextState` of its predecessor, using the draws in order, and lies in 0..2. The call fails (IndexError) exactly when steps >= 2 and `initial` is no valid row index. |
| `Network.Label` | abm.py:33 | The label of a state reads back as that state (`LabelState`), so the three labels are distinct and a record's label determines the node's new state. |
| `Network.IdsCount` | abm.py:48 | Among the ids `range(n)`, each of 0..n-1 occurs exactly once and no other value occurs. |
| `Network.ActivationOrderIsPermutation` | abm.py:55 | An activation order of n distinct ids below n is a permutation of 0..n-1, so it activates every node exactly once. |
| `Network.Node.constructor` | abm.py:25-29 | A new node has the given id, model and malicious flag (false when omitted, as in the Python default), and starts in state 0 (normal). |
| `Network.Node.Step` | abm.py:31-34 | The node's new state is `NextState` of its old state under the model's matrix. The malicious flag plays no part. Exactly one record is appended to the model's log: the node's id and the label of the new state. Only the node's state and the model's log change. |
| `Network.NetworkModel.constructor` | abm.py:37-51 | The model holds max(n_nodes, 0) fresh nodes. Node i has id i, belongs to this model, starts in state 0, and is malicious iff i < n_malicious, with no check against n_nodes. The log starts empty. |
| `Network.NetworkModel.Step` | abm.py:53-55 | The previous log is discarded. Afterwards the log has one record per node, in activation order, and its ids are a permutation of 0..n-1. Each activated node moved by one `NextState` with its own draw, and its record carries the label of its new state. The node ids and flags (`Valid`) are preserved. |

## Left out

- Markov.Choose: floating point is not modelled. Probabilities are exact reals, a row must sum to exactly 1, and the sampler's tolerance and its renormalisation of the cumulative sums are not captured.
- Markov.RowIndex: `Matrix` has exactly 3 rows. Python accepts any matrix whose rows have 3 entries, so with more rows a larger index selects a row, and with fewer rows a smaller index already raises IndexError; the model covers only the 3-row shape that abm.py builds (abm.py:9-13).
- Markov.NextState: the ValueError the sampler raises for a row that is not a probability distribution is not modelled. `Row` and `Matrix` admit only valid rows.
- numpy's global generator, which supplies each draw from a row, is replaced by caller-supplied uniform variates, one per draw, consumed in activation order.
- The model's `random.Random()` generator (abm.py:41), which the scheduler (`RandomActivation`, abm.py:42) uses to shuffle the nodes each tick, is replaced together with that shuffle by a caller-supplied activation order. The base classes `Agent` and `Model` are library code: the id that `Agent.__init__` assigns before abm.py:27 overwrites it, and the agent registry, are not modelled.
- `SingleGrid` (abm.py:44) is built but never read, so it is not modelled.
- The driver loop and its `print` (abm.py:57-60) are I/O and are not modelled.
- The Mininet topology and controller section (abm.py:63-86) sets up network emulation and has no logic of its own.
- Python's dynamic typing is not modelled: states, `steps` and the node counts are integers.
