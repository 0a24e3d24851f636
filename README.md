# SocialNetwork: a verified model of an opinion-diffusion simulator

This project models the core of `SocialNetwork.py`, a simulator in which
agents of six archetypes (R, DA, E, RWC, SC, SR) hold binary opinions on
`K` dimensions and influence one another over a directed or undirected graph.
Each step of the simulation does three things:

1. Every node may flip opinion coordinates towards or away from what it sees
   of its neighbourhood (`update_attributes`).
2. Nodes cut ties whose reward falls below a threshold (`act`).
3. Nodes link to a few random candidates (`network_effects`).

Along the way the raw weight matrix `W`, the normalized matrix `N` and the
mask tensor (what each node sees of each other node) are kept up to date.

The project has these modules:

- `Util`: sums, means and counts over sequences of reals, and `Option`.
- `Codecs`: the text codecs of the file format. These are
  `vector_to_string`, `string_to_vector`, `matrix_to_string`,
  `string_to_matrix`, `encode_mask` and `decode_mask`. Values are abstract
  tokens free of `,` and `#`.
- `Settings`: the properties dictionary and the defaults `_validate_input`
  fills in.
- `Weights`: column normalization (`update_weight_column`) and the closed
  form of what `initialize_edge_weights` writes.
- `Archetypes`: the reward of a neighbour and of a node, the unweighted local
  average, the global average, and the flip decision of `update_attributes`.
- `Mixing`: how `mix_network` allocates archetype slots. It truncates with
  `int()`, makes up any shortfall with the last-listed minimal type, then
  shuffles and indexes.
- `Resistance`: the resistance `initialize_resistance` gives each node.
- `Rewire`: what the `act` sweep cuts, stated as a recursive function of the
  adjacency before the sweep, plus the weight `network_effects` leaves.
- `Network`: the class `SocialNetwork`. Its state lives in arrays: adjacency
  `adj` (`adj[a, b]` is the edge a -> b), `W`, `N`, `attrs`, `masks` and
  `resistance`. The type vector and the index lists per type are fields the
  methods reassign. The class's imperative operations are proved against
  the functions of the pure modules.

`Valid()` is the invariant every operation keeps:

- no self-loops;
- both directions of every edge are stored when undirected or symmetric;
- self-weight 1, no negative weight, and a non-zero weight only on an edge.

The invariants that are only preserved once established are:

- `Normalized()`: every column of `N` is its column of `W` divided by the
  column total. Such a column is a convex combination.
- `ViewsValid()`: views lie in [-1, 1], and a node sees only itself and its
  influencers.

Every random draw is a parameter: a function from the index of what the draw
serves (node, pair, coordinate, turn) to its value. The shuffle of
`mix_network` is a sequence of swap picks, and the order in which
`network_effects` walks a candidate set is arbitrary. The networkx topology
generators are not modelled: their edge list is an input of the constructor.

Where the code and its documentation disagree, the model follows the code:

- `reveal` writes the constant 1.0, not the true opinion.
- In directed mode `initialize_masks` gives a predecessor's view of its
  successor (`masks[j][i]` for an edge j -> i), while `connect(u, v)` gives
  the target v's view of u. So the mask invariant holds initially only for
  undirected and symmetric networks.
- `disconnect` returns without doing anything when its draw is below
  `unfriend`. With the default 1.0 it never disconnects.
- In directed mode `act` calls `disconnect(i, y)` on a predecessor `y` of `i`.
  This removes the edge i -> y, not y -> i, and zeroes both weights.
- Masks are not refreshed after opinions flip.

## Model

| member | source | states |
|---|---|---|
| Codecs.VectorToString | SocialNetwork.py:55-58 | the text is the tokens joined by ',' (the trailing ',' dropped), and "" for no tokens |
| Codecs.StringToVector | SocialNetwork.py:60-63 | the empty string gives no tokens and only it does; the tokens are ','-free and joined by ',' give back the string, whatever the string |
| Codecs.VectorRoundTrip | SocialNetwork.py:55-63 | decoding an encoded vector of separator-free tokens gives the vector back (except the single empty token) |
| Codecs.EmptyTokenVanishes | SocialNetwork.py:55-63 | the one-token vector [""] encodes to "" and decodes to the empty vector |
| Codecs.MatrixToString | SocialNetwork.py:39-44 | for non-empty rows the text is the rows joined by ',' within and '#' between; "" for no rows |
| Codecs.StringToMatrix | SocialNetwork.py:46-52 | at least one row, ','-free tokens, and joining rows by '#' gives back the string |
| Codecs.MatrixRoundTrip | SocialNetwork.py:39-52 | string_to_matrix inverts matrix_to_string for every non-empty matrix of non-empty rows of tokens |
| Codecs.MatrixEmptyRowLost | SocialNetwork.py:39-44 | as written, an empty row after a non-empty one removes the previous '#'; [["1.0"], []] encodes to "1.0" and reads back as [["1.0"]] |
| Codecs.MatrixJoinedRoundTrip | SocialNetwork.py:39-52 | the intended encoding (rows joined by '#') round-trips every non-empty matrix, empty rows included |
| Codecs.DecimalRoundTrip | SocialNetwork.py:77 | int() of the decimal text '%d' writes gives the number back |
| Codecs.EncodeMask | SocialNetwork.py:68-78 | string_to_matrix of the encoding is exactly the (row index, row value) table; no non-zero row gives "" |
| Codecs.MaskTableRows | SocialNetwork.py:71-77 | a row appears in the table iff it has a non-zero coordinate, and then with its index and the value of its bit string |
| Codecs.DecodeMask | SocialNetwork.py:81-82 | a non-empty 0/1 digit list whose binary value is the number, with a leading 1 for a positive number |
| Codecs.DecodeMaskRoundTrip | SocialNetwork.py:81-82 | decode_mask inverts the row value when the first coordinate is visible |
| Codecs.DecodeMaskDropsLeadingZeros | SocialNetwork.py:81-82 | decode_mask returns the row's bits without leading zeros, so a row whose first coordinate is hidden comes back shorter |
| Codecs.DecodeMaskShiftExample | SocialNetwork.py:81-82 | the row [0, 1] has value 1 and decodes as [1] |
| Codecs.DecodeMaskRowRoundTrip | SocialNetwork.py:81-82 | the intended decoder (K digits, zeros kept) inverts the row value of every K-bit row |
| Codecs.MaskRowVisibility | SocialNetwork.py:68-82 | after encoding and the intended decoding, bit j is 1 exactly when coordinate j of the row is non-zero |
| Settings.VisibilityOf | SocialNetwork.py:387-403 | 'visible' and 'random' map to their two modes, every other string to neither |
| Settings.ValidateInput | SocialNetwork.py:258-273 | every missing entry gets its default (n 0, topology '', saturation 0.1, dimensions 1, 'visible', weight 1.0, unfriend 1.0, update 1.0, resistance 0.0); given entries are kept; directed holds iff given directed or symmetric is true |
| Settings.ValidateInputIdempotent | SocialNetwork.py:258-273 | filling in defaults twice is the same as filling them in once |
| Settings.ValidateInputKeepsGiven | SocialNetwork.py:258-273 | a complete dictionary is unchanged except that a true symmetric forces directed |
| Weights.NormalizeColumn | SocialNetwork.py:494-507 | the diagonal becomes 1 over the column total, an entry off the influencers and the diagonal becomes 0 |
| Weights.ColumnTotalAtLeastOne | SocialNetwork.py:494-507 | a well-formed raw column (self-weight 1, non-negative) totals at least 1, so the division is defined |
| Weights.NormalizeColumnIsProportional | SocialNetwork.py:494-507 | for a column whose non-zero weights lie on influencers and the diagonal, the rewritten column is the raw column divided by its total |
| Weights.NormalizedColumnSumsToOne | SocialNetwork.py:494-507 | such a normalized column sums to 1 |
| Weights.NormalizedColumnIsConvex | SocialNetwork.py:494-507 | a well-formed column normalizes to entries in [0, 1] summing to 1 |
| Weights.LinkKeepsWellFormed | SocialNetwork.py:588-599 | adding an influencer with a non-negative weight keeps the column well-formed |
| Weights.UnlinkKeepsWellFormed | SocialNetwork.py:557-581 | removing an influencer and zeroing its weight keeps the column well-formed |
| Weights.InitialWeightMirrored | SocialNetwork.py:347-363 | undirected, the initial weights are symmetric |
| Weights.InitialWeight | SocialNetwork.py:347-363 | 1 on the diagonal, 0 off the edges; on an edge the weight of one of its two visits, the own visit's when directed, and positive when that visit's weight is |
| Weights.WeightAtVisit | SocialNetwork.py:347-363 | with a positive own draw the weight seen when u's column is normalized is the final initial weight; on an edge it is one of the two visits' weights |
| Archetypes.Distance | SocialNetwork.py:538-542 | the Hamming fraction over the shown coordinates lies in [0, 1] |
| Archetypes.DistanceScaled | SocialNetwork.py:538-542 | distance times the number of shown coordinates is the number of differing shown coordinates |
| Archetypes.DistanceZero | SocialNetwork.py:538-542 | distance 0 iff the node agrees with every shown coordinate |
| Archetypes.DistanceOne | SocialNetwork.py:538-542 | distance 1 iff the node differs on every shown coordinate |
| Archetypes.Reward | SocialNetwork.py:533-549 | 0 when nothing is shown; otherwise defined iff the tag is an archetype, and then in [0, 1] |
| Archetypes.AgreementReward | SocialNetwork.py:544-545 | for R and DA the reward is 1 iff all shown coordinates agree, 0 iff all differ |
| Archetypes.DifferenceReward | SocialNetwork.py:546-547 | for E and RWC the reward is 1 iff all shown coordinates differ, 0 iff all agree |
| Archetypes.BalanceReward | SocialNetwork.py:548-549 | for SC and SR the reward is 1 iff exactly half of the shown coordinates differ |
| Archetypes.RewardsComplementary | SocialNetwork.py:544-547 | R and E rewards for the same view sum to 1; DA scores as R and RWC as E |
| Archetypes.NodeReward | SocialNetwork.py:551-555 | 0 for no neighbour; undefined iff some neighbour reward is undefined |
| Archetypes.NodeRewardBounded | SocialNetwork.py:551-555 | a defined node reward lies in [0, 1] |
| Archetypes.LocalAverage | SocialNetwork.py:513-519 | K coordinates, the column sums of the node's views over its influencer count plus one |
| Archetypes.LocalAverageBounded | SocialNetwork.py:513-519 | with views in [-1, 1] seen only from the node and its influencers, each coordinate of the local average lies in [-1, 1] |
| Archetypes.IsolatedAverageIsOwnView | SocialNetwork.py:513-519 | a node with no influencer that sees only itself averages to its own view |
| Archetypes.ColumnMeans | SocialNetwork.py:524-530 | the mean of an empty matrix is undefined (numpy gives nan), otherwise has K coordinates |
| Archetypes.ColumnMeansBounded | SocialNetwork.py:524-530 | means of opinions in [-1, 1] lie in [-1, 1] |
| Archetypes.ChosenMeaning | SocialNetwork.py:639-661 | a coordinate is chosen iff the family test fails, abs(avg) exceeds the resistance and the draw is below update; for a non-negative resistance a conformist only flips towards the average's sign, a contrarian only away from it |
| Archetypes.Chosen | SocialNetwork.py:639-661 | only an archetype's coordinate is chosen; never with an average in [-1, 1] and a resistance of at least 1, nor with a draw in [0, 1) and update at most 0 |
| Mixing.Trunc | SocialNetwork.py:459 | int() truncates toward zero |
| Mixing.Unshuffled | SocialNetwork.py:456-474 | the allocation has n slots when the truncated counts total at most n, else exactly that total |
| Mixing.ExactlyN | SocialNetwork.py:456-474 | with non-negative proportions summing to at most 1, the type vector has exactly n entries |
| Mixing.OvershootExample | SocialNetwork.py:452-474 | the 1e-6 tolerance accepts a proportion of 1.0000005, which allocates 2000001 slots for n = 2000000 |
| Mixing.MinTag | SocialNetwork.py:456-465 | the shortfall type is a key once some count is at most the 99999999 sentinel, and '' when every count exceeds it |
| Mixing.MinScanIsLastMinimal | SocialNetwork.py:463-465 | the shortfall type is the last-listed type with the fewest slots |
| Mixing.UnshuffledCounts | SocialNetwork.py:456-474 | each type gets its truncated count of slots, and the minimal type the shortfall on top |
| Mixing.UnshuffledKeys | SocialNetwork.py:456-474 | every slot holds a type of the distribution |
| Mixing.ShuffleDown | SocialNetwork.py:476 | the swap pass keeps the length and is a permutation of the type vector |
| Mixing.IndexesOf | SocialNetwork.py:477-478 | the index list of t holds exactly the positions of t, all below the scanned prefix |
| Mixing.IndexesAscending | SocialNetwork.py:477-478 | the index list is strictly ascending |
| Mixing.IndexesPartition | SocialNetwork.py:477-478 | every position is in exactly one index list, its own type's |
| Mixing.MixedTypes | SocialNetwork.py:456-478 | after the shuffle every slot holds a distribution type, each with its allocated count |
| Resistance.Entry | SocialNetwork.py:412-426 | a dictionary entry sets a node iff its key is a distribution type that lists the node and its value is 'random' or a float in [0, 1] |
| Resistance.PerTypeBounded | SocialNetwork.py:412-426 | per-type resistances lie in [0, 1], and are non-zero only from a key that lists the node |
| Resistance.Value | SocialNetwork.py:406-433 | the scalar is copied unchecked; every other parameter kind gives a resistance in [0, 1] |
| Resistance.OutOfRangeIgnored | SocialNetwork.py:420-423 | an out-of-range per-type value acts as if the entry were absent |
| Rewire.Fired | SocialNetwork.py:666-677 | act cuts only an edge that was there before the sweep and whose cut was wanted |
| Rewire.InSnapshot | SocialNetwork.py:668-671 | a turn sees only an edge that was there before the sweep, and every such edge of a later-or-equal node |
| Rewire.AfterAct | SocialNetwork.py:666-677 | an edge after the sweep was there before; a pair whose cut nobody wanted keeps its edge |
| Rewire.AtMostOneSide | SocialNetwork.py:666-677 | a pair is never cut from both of its ends |
| Rewire.SeenCut | SocialNetwork.py:670-672 | a later turn does not find an edge an earlier turn cut |
| Rewire.UndirectedCut | SocialNetwork.py:666-677 | undirected, an edge goes iff either end wants to cut it; the later end decides only if the edge survived |
| Rewire.Candidate | SocialNetwork.py:683 | int(random() * n) is a node index |
| Rewire.EffectWeight | SocialNetwork.py:583-615 | W[a][b] after network_effects: the later connect wins, and an untouched weight stays |
| Network.SocialNetwork.Neighbors | SocialNetwork.py:487-490 | the influencers of u are exactly the v with an edge v -> u |
| Network.SocialNetwork.NeighborsMutual | SocialNetwork.py:487-490 | undirected and symmetric, influence is mutual |
| Network.SocialNetwork.NormalizedIsConvex | SocialNetwork.py:494-507 | under the invariants every column of N has entries in [0, 1] summing to 1 and is W's column over its total |
| Network.SocialNetwork.ColumnTotal | SocialNetwork.py:502 | the column sum of W, computed by a loop |
| Network.SocialNetwork.UpdateWeightColumn | SocialNetwork.py:494-507 | column u of N becomes W's column over its total on influencers and the diagonal, 0 elsewhere; other columns are untouched |
| Network.SocialNetwork.Connect | SocialNetwork.py:583-622 | connect(u, u) changes nothing; otherwise adds u -> v (both ways when mirrored), sets W[u][v] (and W[v][u] when symmetric) to the configured or drawn weight, shows u to v under 'visible' (and v to u when symmetric), renormalizes columns u and v only; keeps Valid, Normalized and valid views |
| Network.SocialNetwork.Disconnect | SocialNetwork.py:557-581 | a draw below unfriend changes nothing; otherwise removes u -> v (and v -> u when mirrored), zeroes both weights, clears both views only if u -> v existed, renormalizes columns u and v only; keeps Valid, Normalized and valid views |
| Network.SocialNetwork.Reveal | SocialNetwork.py:624-625 | writes 1.0 to v's view of u's coordinate k and nothing else |
| Network.SocialNetwork.Hide | SocialNetwork.py:627-628 | writes 0 to v's view of u's coordinate k and nothing else; hiding a hidden coordinate changes nothing |
| Network.SocialNetwork.GenerateEdges | SocialNetwork.py:333-336 | the store holds exactly the listed edges, their reverses when symmetric, and both directions when undirected |
| Network.SocialNetwork.VisitColumnWellFormed | SocialNetwork.py:347-363 | after u's visit, column u of W is well-formed and totals at least 1 |
| Network.SocialNetwork.VisitNode | SocialNetwork.py:347-363 | after u's visit W holds the initial weights of every visit up to u's |
| Network.SocialNetwork.AllVisited | SocialNetwork.py:338-367 | after all visits W holds the closed-form initial weights and is well weighted; with positive draws every column of N is normalized |
| Network.SocialNetwork.InitializeEdgeWeights | SocialNetwork.py:338-367 | W holds the initial weights (mirrored when undirected), each column of N is normalized from W as its visit left it, and N is normalized when the draws are positive |
| Network.SocialNetwork.InitializeAttributeSpace | SocialNetwork.py:370-374 | every opinion is -1 or +1 as the choice draw says |
| Network.SocialNetwork.InitializeMasks | SocialNetwork.py:383-403 | every node sees itself; an influencer j of i sees i fully under 'visible', by a coin per coordinate under 'random'; all else 0; views are valid when mirrored |
| Network.SocialNetwork.RewardForNeighbor | SocialNetwork.py:533-549 | in [0, 1] when defined; 0 when u sees nothing of v; undefined iff something is shown and u's tag is no archetype |
| Network.SocialNetwork.InfluencerList | SocialNetwork.py:551-555 | the influencers of u, ascending |
| Network.SocialNetwork.RewardForNode | SocialNetwork.py:551-555 | 0 for an isolated node; in [0, 1] when defined; undefined iff some influencer's reward is |
| Network.SocialNetwork.LocalAverage | SocialNetwork.py:513-519 | K coordinates, read from the masks; its range and the isolated case are the two lemmas below |
| Network.SocialNetwork.LocalAverageInRange | SocialNetwork.py:513-519 | with valid views every local average lies in [-1, 1] |
| Network.SocialNetwork.IsolatedLocalAverage | SocialNetwork.py:513-519 | a node without influencers averages its own view |
| Network.SocialNetwork.GlobalAverage | SocialNetwork.py:524-530 | K means of all nodes or of the nodes of type t; undefined for no nodes, an unknown type or an index out of range |
| Network.SocialNetwork.GlobalAverageInRange | SocialNetwork.py:524-530 | the global average of ±1 opinions lies in [-1, 1] |
| Network.SocialNetwork.IndexesByTypePartition | SocialNetwork.py:477-478 | after mixing every position is in its own type's list and in no other |
| Network.SocialNetwork.Allocate | SocialNetwork.py:456-469 | the loop gives the truncated allocation, the minimal tag and an empty list per key |
| Network.SocialNetwork.PadShortfall | SocialNetwork.py:472-474 | the shortfall loop gives the unshuffled type vector |
| Network.SocialNetwork.Shuffle | SocialNetwork.py:476 | the swap pass, a permutation of its input |
| Network.SocialNetwork.IndexTypes | SocialNetwork.py:477-478 | each key's list is the positions of that key |
| Network.SocialNetwork.MixNetwork | SocialNetwork.py:436-478 | no distribution becomes the default one; a distribution failing the sum check leaves no types; otherwise types is the shuffled allocation and the lists index it |
| Network.SocialNetwork.InitializeResistance | SocialNetwork.py:406-433 | every node's resistance is the one the parameter gives it |
| Network.SocialNetwork.SetTypeResistance | SocialNetwork.py:412-426 | one dictionary key's pass extends the per-type resistance by that entry |
| Network.SocialNetwork.CollectChanges | SocialNetwork.py:639-661 | the changes list holds exactly the chosen (node, coordinate) pairs, in visiting order |
| Network.SocialNetwork.FlipChosen | SocialNetwork.py:650-661 | only an archetype's coordinate with a draw below update is chosen, and none with averages in [-1, 1] and a resistance of at least 1 |
| Network.SocialNetwork.ApplyChanges | SocialNetwork.py:663-664 | each listed coordinate is negated once, every other is kept |
| Network.SocialNetwork.UpdateAttributes | SocialNetwork.py:637-664 | each coordinate is negated iff it was chosen on the state before the update, and opinions stay ±1 |
| Network.SocialNetwork.WantsCut | SocialNetwork.py:672-673 | a wanted cut has a defined reward below unfriend_threshold |
| Network.SocialNetwork.CutWanted | SocialNetwork.py:672-676 | on a given view: a wanted cut needs a positive unfriend_threshold (rewards are never negative), act's draw below 'unfriend' and disconnect's draw not below it |
| Network.SocialNetwork.ActOn | SocialNetwork.py:671-677 | one neighbour of the turn is handled: the state is the fired cuts up to and including it, and Valid, Normalized and valid views are kept |
| Network.SocialNetwork.ActTurn | SocialNetwork.py:668-677 | one node's turn is done: the state is the fired cuts of all earlier turns and this one, and the invariants are kept |
| Network.SocialNetwork.ActDone | SocialNetwork.py:666-677 | after the last turn the adjacency, weights and views are those of exactly the fired cuts |
| Network.SocialNetwork.Act | SocialNetwork.py:666-677 | the adjacency becomes Rewire.AfterAct of the adjacency and the wanted cuts before the sweep; weights and views of cut pairs are zeroed; Valid, Normalized and valid views are kept |
| Network.SocialNetwork.Candidates | SocialNetwork.py:683 | the candidate set is the five scaled draws, all nodes |
| Network.SocialNetwork.Linked | SocialNetwork.py:683-687 | a link joins a candidate node to a different node |
| Network.SocialNetwork.ConnectIfGated | SocialNetwork.py:685-687 | the gated connect: adds c -> i (mirrored as connect does), sets the weights and views connect sets, changes nothing else when the gate fails or c == i, and keeps the invariants |
| Network.SocialNetwork.EffectOn | SocialNetwork.py:684-687 | one candidate is handled: the state is the links so far plus this one, and the invariants are kept |
| Network.SocialNetwork.EffectTurn | SocialNetwork.py:682-687 | one node's candidates are done: the state is the links of all earlier turns and this one, and the invariants are kept |
| Network.SocialNetwork.EffectDone | SocialNetwork.py:679-687 | after the last turn the adjacency, weights and views are those of exactly the linked pairs |
| Network.SocialNetwork.NetworkEffects | SocialNetwork.py:679-687 | the adjacency gains exactly the linked pairs (mirrored as connect does), weights follow Rewire.EffectWeight, views are shown for the links; Normalized and valid views are kept; the result does not depend on the candidate order |
| Network.SocialNetwork.Step | SocialNetwork.py:630-634 | flips follow the pre-step choice, Valid, Normalized and valid views are kept, every edge afterwards was there before or is linked, and every link is there |
| Network.SocialNetwork.InitializeArrays | SocialNetwork.py:123-129 | edges, weights, opinions and views as the four initializers give them |
| Network.SocialNetwork.InitializeTypes | SocialNetwork.py:130-131 | types and index lists as mix_network gives them (no types when no distribution is given or it fails the sum check), then resistances from them |
| Network.SocialNetwork.Build | SocialNetwork.py:119-131 | a network satisfying Valid with ±1 opinions whose edges, weights, opinions, views, types, index lists and resistances are the closed forms above; without a distribution that passes the sum check the type vector is empty |
| Network.MixedKeys | SocialNetwork.py:442-444 | the type keys after mixing: 'default' when no distribution is given |
| Network.MixedIndexes | SocialNetwork.py:452-478 | the index lists after mixing: empty unless the distribution passes the sum check |

## Left out

- XML persistence (`_read`, `_save`): file I/O and `eval` of attribute text.
- The interactive `debug` console and `track_stat`: console I/O, plotting and networkx graph measures.
- The networkx topology generators: foreign library calls. Their edge list is an input of `Build`. `star_graph(n)` produces n + 1 nodes, and scale-free and cycle graphs can produce self-loops; these are excluded by `Build`'s precondition. Any topology name outside the list of known ones makes the constructor call the nonexistent `self.log` (SocialNetwork.py:124) and raise AttributeError.
- `initialize_correlations`: an identity matrix that nothing reads.
- The weighted local average with rounding to two decimals, and the tolerance print of `initialize_edge_weights`: floating-point behaviour. All values are exact reals.
- RNG seeding and the order of the random stream: draws are parameters indexed by what they serve.
- `_log` and every `print`.
- Network.SocialNetwork.Connect: requires `u == v` under 'random' visibility, because that branch of the source reads undefined attributes and raises.
- Network.SocialNetwork.Disconnect: requires `u != v`. For `disconnect(u, u)` the source zeroes the self-weight and then divides by a possibly zero total.
- Network.SocialNetwork.Act: requires a defined reward on every edge before the sweep (`RewardsDefined`). This is stronger than the source needs: it compares only the rewards of pairs still present in a turn's neighbour list, so a network whose undefined rewards lie only on edges cut earlier in the sweep runs in the source but is outside the model. A reward of a node whose tag is no archetype is `None`, and comparing it raises.
- Network.SocialNetwork.UpdateAttributes: requires a tag for every node when K > 0. The source indexes the type list and raises on a short one, for example when `mix_network` left it empty.
- Network.SocialNetwork.NetworkEffects: requires that no link is made under 'random' visibility, for the reason given for Connect.
- Network.SocialNetwork.GenerateEdges: requires edges between nodes and no self-loops.
- Network.SocialNetwork.Build: requires a non-negative fixed weight (through `Shape()`). The source accepts a negative one unchecked (SocialNetwork.py:355, :594); update_weight_column then divides by a total that can be zero or negative, giving inf, nan or negative normalized weights.
- Network.SocialNetwork.Build: requires, through `TypesPlaceable`, that a shortfall type is a key of the distribution. When every truncated count exceeds the 99999999 sentinel the source keeps `min_t = ''` and raises KeyError on `nums['']` (SocialNetwork.py:473).
- Network.SocialNetwork.Build: requires, for a per-type resistance dictionary, index lists for its keys that name nodes. The source raises KeyError or IndexError otherwise.
- Network.SocialNetwork.Build: takes 'friend' and 'unfriend_threshold' as plain reals. `_validate_input` gives them no default, so when they are missing the source raises KeyError in act (SocialNetwork.py:673) and network_effects (SocialNetwork.py:686); Step, Act and NetworkEffects share this.
- Network.SocialNetwork.Step: states the new adjacency as bounded between "before or linked" and "linked". It does not state the exact composition of the cut and link sweeps, which Act and NetworkEffects state one at a time.

## Findings

| source | as written | input that shows it | evidently intended | confidence | as-written member | corrected member |
|---|---|---|---|---|---|---|
| SocialNetwork.py:81-82 | decode_mask returns the binary digits of the row value with no leading zeros | the row [0, 1] encodes as 1 and decodes as [1] | K digits per row, leading zeros kept, so every row round-trips | not executed | Codecs.DecodeMaskDropsLeadingZeros | Codecs.DecodeMaskRowRoundTrip |
| SocialNetwork.py:39-52 | matrix_to_string drops the last character after each row, which is the previous row's '#' when a row is empty | [["1.0"], []] encodes as "1.0" and decodes as [["1.0"]] | rows joined by '#', so an empty row is kept | not executed | Codecs.MatrixEmptyRowLost | Codecs.MatrixJoinedRoundTrip |
