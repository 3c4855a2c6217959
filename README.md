# Faunus core bookkeeping, modelled in Dafny

Faunus is a Metropolis Monte Carlo framework for molecular systems such as
proteins, polymers, ions and membranes. This project models the parts of its
core that are index bookkeeping, summation structure, boundary arithmetic,
counters and serialisers. It then proves properties of the model. The physics
is kept abstract: pair potentials, distances and Boltzmann factors are
parameters.

The modules follow the source tree:

- `Particles` (particles.dfy): particle values, together with the pair sums every energy is built from.
- `Interaction` (interaction.dfy): the `interaction<T>` energy overloads of `include/faunus/energy.h`, written as loops over index ranges and proved against the sums.
- `Hydrophobic` (hydrophobic.dfy): `int_hydrophobic` from the same file. It covers `search`, `hyenergy` and the energy overloads that add the hydrophobic term. The model has both the intended nearest-particle term and the loop as written.
- `Containers` (containers.dfy): collision tests of the sphere, periodic box, clutch and cylinder, as well as `anint` and `box::boundary` from `classes/container.h`.
- `Ranges` (ranges.dfy): `ContinuousRange` and its iterator from `include/faunus/range.h`.
- `Spaces` (spaces.dfy): `Space` from `include/faunus/space.h`. This covers particle insertion and erasure, which shift every enrolled group, plus `enroll`, `findGroup` and `charge`.
- `AtomTracking`, `MoveBase`, `PolymerMoves`, `Tempering`, `Nbody`: the following parts of `include/faunus/move.h`:
  - the per-species index lists of `AtomTracker`;
  - the `Movebase` counters and `move(n)`;
  - crankshaft and pivot particle selection;
  - replica partner choice;
  - the n-body pair list.
- `Auxiliary` (auxiliary.dfy): `opair`, `pair_list`, `map_ij`, `str2val<bool>` and the `for_each_pair` visiting order.
- `Mpi` (mpi.dfy): `splitEven`, and the `ParticleTransmitter` pack/unpack of particles into float buffers.
- `Ran2` (ran2.dfy): the integer state of the Numerical Recipes `ran2` generator in `src/slump.cpp`.
- `McLoop`, `Drift`, `Json`: the macro/micro step counter, the energy-drift tracker and the comment stripper applied to JSON input.
- `ExternalPotential` (externalpotential.dfy): the hydrophobic wall potentials.
- `MkInput` (mkinput.dfy): the FASTA reader `readFasta` of the peptide input script.
- `Outcomes` (outcomes.dfy): `Option` and `Result`.

How the source's constructs are represented:

- Vectors are sequences.
- Objects whose fields the source updates are classes, and their methods carry `modifies` frames.
- Floating point is modelled as `real`.
- C and C++ integer widths are written out where they matter: `unsigned int` counters, `unsigned short` indices, `size_t` in `splitEven`, the 32-bit `int` of `ran2`.
- A debug `assert` of the source becomes a `requires` of the member, or an error result, where the model keeps it. Each such member has a line under "## Left out". The asserts the model drops are listed there too.
- Where the documentation and the code disagree, the model follows the code:
  - `ParticleTransmitter`'s default format is XYZQI (the field comment says XYZQ);
  - `readFasta` looks up `dict[elem]` with the character as read, although its test uses the upper case;
  - `hyenergy`, `splitEven` and the accumulator of `for_each_pair` are modelled as written, next to their corrected versions (see "## Findings").

## Model

| member | source | states |
|---|---|---|
| Particles.CrossTranspose | include/faunus/energy.h:117-125 | With a symmetric pair potential, the group-group cross sum is the same whichever group comes first. |
| Particles.TriConcat | include/faunus/energy.h:108-116 | The pairs i < j of a concatenation are those inside each part plus every pair across the two. |
| Particles.SumToFromSymmetric | include/faunus/energy.h:86-94 | With a symmetric potential, summing pot(p[k], a) equals summing pot(a, p[k]). |
| Particles.ChargeSumConcat | include/faunus/space.h:155-160 | The net charge of two particle runs is the sum of their net charges. |
| Interaction.ParticleEnergy | include/faunus/energy.h:156-162 | energy(p, a) is f times the sum of pairpot(p[k], a) over every particle. |
| Interaction.IndexEnergy | include/faunus/energy.h:49-60 | energy(p, j) is f times the pair energy of j with [0, j) and with (j, n). |
| Interaction.IndexSumExcludesSelf | include/faunus/energy.h:49-60 | Adding the self term pot(p[j], p[j]) to energy(p, j)'s sum gives the sum over all particles, so the self term is exactly what is left out. |
| Interaction.GroupEnergy | include/faunus/energy.h:61-72 | energy(p, g) is f times the pairs of each member with every particle before and after the group; no pair inside the group is counted. |
| Interaction.GroupIndexEnergy | include/faunus/energy.h:73-85 | energy(p, g, j) is f times j's pairs with the members of g, skipping j itself only when it is a member. |
| Interaction.GroupIndexExcludesSelf | include/faunus/energy.h:73-85 | For j inside g, the skipped term is exactly the self term. |
| Interaction.GroupParticleEnergy | include/faunus/energy.h:86-94 | energy(p, g, a) is 0 for the empty group (beg == -1); otherwise it is f times the sum of pot(a, member). |
| Interaction.MoleculesSumSnoc | include/faunus/energy.h:98-105 | One more molecule adds exactly its members' pairs with every particle after its end. |
| Interaction.MoleculesEnergy | include/faunus/energy.h:95-107 | energy(p, vector<macromolecule>) is f times the sum, over the groups, of each group against everything after it. |
| Interaction.MoleculesTiling | include/faunus/energy.h:95-107 | When the molecules lie back to back, their internal energies plus the molecules energy count every pair of the tiled particles exactly once. |
| Interaction.SystemEnergy | include/faunus/energy.h:108-116 | energy(p) is f times the sum over every pair i < j, each counted once. |
| Interaction.TriRemoveOne | include/faunus/energy.h:108-116 | Removing one particle from the system removes exactly its pairs with every other particle. |
| Interaction.SystemMinusIndex | include/faunus/energy.h:108-116 | The system pair sum is the sum without particle j plus energy(p, j)'s sum (symmetric potential). |
| Interaction.IndexIsSingletonGroup | include/faunus/energy.h:49-72 | energy(p, j) equals energy(p, g) for the one-particle group [j, j] (symmetric potential). |
| Interaction.SystemDecomposition | include/faunus/energy.h:108-116 | For every group g, the system energy is internal(g) plus energy(p, g) plus the pairs lying wholly outside g (symmetric potential). |
| Interaction.GroupGroupEnergy | include/faunus/energy.h:117-125 | energy(p, g1, g2) is f times the full cross product of the two ranges. |
| Interaction.Internal | include/faunus/energy.h:147-155 | internal(p, g) is 0 for beg == -1; otherwise it is f times every pair i < j inside the group, once each. |
| Interaction.InternalMinusMember | include/faunus/energy.h:147-155 | internal(g) is internal(g without member j) plus energy(p, g, j) (symmetric potential). |
| Interaction.PotentialAt | include/faunus/energy.h:139-145 | pot(p, a) is f times the sum of charge / distance to a. |
| Interaction.ChargeOverDistConcat | include/faunus/energy.h:139-145 | The potential of two particle runs at a point is the sum of their potentials. |
| Interaction.Potential | include/faunus/energy.h:169-176 | potential(p, j) is exactly 0 when p[j] is uncharged; otherwise it is the unscaled sum of charge / distance over every other particle. |
| Hydrophobic.IntHydrophobic.constructor | include/faunus/energy.h:225 | The split end_of_protein_one starts at 1e7, with no hydrophobic or ion indices. |
| Hydrophobic.IntHydrophobic.Search | include/faunus/energy.h:231-239 | search(p) rebuilds hy from the hydrophobic flags and pa from the non-hydrophobic NA, CL and I ids, as stored unsigned shorts; the split is unchanged. |
| Hydrophobic.HydrophobicIndicesExact | include/faunus/energy.h:231-239 | When the vector fits the index type, hy holds exactly the indices of hydrophobic particles, ascending. |
| Hydrophobic.IonIndicesExact | include/faunus/energy.h:231-239 | When the vector fits the index type, pa holds exactly the non-hydrophobic ion indices, ascending. |
| Hydrophobic.SearchDisjoint | include/faunus/energy.h:234-238 | No index is both in hy and in pa. |
| Hydrophobic.StoredIndicesBounded | include/faunus/energy.h:220 | Stored indices are below 2^16, and they are valid positions when the vector fits that range. |
| Hydrophobic.Nearest | include/faunus/energy.h:254-261 | The nearest-particle search returns nothing exactly for an empty list, and otherwise a valid particle index. |
| Hydrophobic.NearestIsFirstMinimiser | include/faunus/energy.h:257-261 | The search returns a minimiser of the squared distance, and because the test is strict it is the first such index in list order. |
| Hydrophobic.NearestSnoc | include/faunus/energy.h:257-261 | A further candidate replaces the nearest so far only when it is strictly nearer. |
| Hydrophobic.ProteinsSplit | include/faunus/energy.h:251 | The split divides hy into the indices at or below end_of_protein_one and those above it; together they account for every index. |
| Hydrophobic.Scan | include/faunus/energy.h:250-261 | The as-written loop's state, where a remembered hymin is always a valid index. |
| Hydrophobic.ScanOneProtein | include/faunus/energy.h:250-261 | With no index past the split, the as-written loop keeps u == 0 and finds the nearest particle, if it is closer than 1e7. |
| Hydrophobic.ScanStaysUnassigned | include/faunus/energy.h:249-263 | Once the loop has read hymin before assigning it, every longer list fails too. |
| Hydrophobic.AsWrittenAgreesOnOneProtein | include/faunus/energy.h:247-264 | Under the default split, with a nearest hydrophobic particle closer than 1e7, the as-written loop gives the intended nearest-particle term. |
| Hydrophobic.AsWrittenFailsWithoutHydrophobic | include/faunus/energy.h:249-263 | With no hydrophobic particle, the loop as written reads hymin unassigned, while the intended term is 0. |
| Hydrophobic.SecondProteinCounterexample | include/faunus/energy.h:251-254 | A concrete case with hy = [0, 1, 2], split after 0, and terms 1, 2 and 3. The loop as written overwrites the first protein's term (1) and adds the terms of hy[1] and hy[2] (2 + 3 = 5). The intended result is 1 plus the nearer of the second protein's two terms (1 + 2 = 3). |
| Hydrophobic.IntHydrophobic.HyEnergyAt | include/faunus/energy.h:247-264 | hyenergy(p, i) as intended: 0 for a hydrophobic particle, otherwise f times the nearest-particle term of each protein. |
| Hydrophobic.IntHydrophobic.NearestSearch | include/faunus/energy.h:250-261 | The loop tracking the nearest particle of each protein computes the sum of both protein terms. |
| Hydrophobic.IntHydrophobic.HyEnergyAtAsWritten | include/faunus/energy.h:247-264 | hyenergy(p, i) exactly as the loop runs, failing where it reads hymin unassigned. |
| Hydrophobic.IntHydrophobic.ScanAsWritten | include/faunus/energy.h:250-261 | The as-written loop's result before scaling by f, or its failure. |
| Hydrophobic.IntHydrophobic.HyEnergy | include/faunus/energy.h:240-246 | hyenergy(p) is the sum, over every ion in pa in pa order, of the corrected term HyEnergyAt (not the loop as written). |
| Hydrophobic.IntHydrophobic.SystemEnergy | include/faunus/energy.h:265-267 | energy(p) is the pair system energy plus hyenergy(p), built from the corrected HyEnergyAt. |
| Hydrophobic.IntHydrophobic.IndexEnergy | include/faunus/energy.h:268-270 | energy(p, i) is energy(p, i) of the base plus the whole of hyenergy(p), built from the corrected HyEnergyAt. |
| Hydrophobic.IntHydrophobic.GroupEnergy | include/faunus/energy.h:271-273 | energy(p, g) is energy(p, g) of the base plus the whole of hyenergy(p), built from the corrected HyEnergyAt. |
| Containers.Collision | classes/container.h:46-134 | The origin never collides with a sphere, box or cylinder of non-negative size. Inside the clutch disc, or outside its sphere, a point always collides. |
| Containers.Anint | classes/container.h:81 | anint(x) has the sign of x and is 0 for every x strictly between -1/2 and 1/2. |
| Containers.AnintOdd | classes/container.h:81 | anint(-x) == -anint(x): ties are rounded away from zero on both sides. |
| Containers.AnintNearest | classes/container.h:81 | anint(x) is at most 1/2 from x, and exactly 1/2 only at a tie, which goes away from zero. |
| Containers.AnintSmall | classes/container.h:81 | Values strictly between -1/2 and 1/2 round to 0. |
| Containers.Fold | classes/container.h:84-86 | A coordinate within half a box length of the centre (strictly) is not moved. |
| Containers.FoldIntoBox | classes/container.h:83-87 | boundary moves a coordinate by a whole number of box lengths into [-len/2, len/2]. |
| Containers.FoldKeepsInterior | classes/container.h:83-87 | A coordinate strictly inside the box is left unchanged. |
| Containers.FoldSwapsFaces | classes/container.h:83-87 | A coordinate on one face is moved to the opposite face, so folding is not idempotent there. |
| Containers.FoldThrice | classes/container.h:83-87 | Folding three times equals folding once: a folded value is either fixed or sits on a face. |
| Containers.BoundaryImage | classes/container.h:43-128 | The box moves only points lying more than half a box length out on some axis; every other shape leaves points where they are. |
| Containers.BoundaryImageInside | classes/container.h:70-87 | In a box whose len_half and len_inv agree with len, a point after boundary never collides. |
| Containers.BoundaryImageKeepsInterior | classes/container.h:83-87 | A point strictly inside the box is a fixed point of boundary. |
| Containers.Boundary | classes/container.h:83-87 | boundary overwrites x, y, z with their folded values in the box, and does nothing for the other shapes. |
| Containers.WallsDoNotCollide | classes/container.h:46-134 | Every collision test is strict: a point exactly on the sphere, a box face or a cylinder end does not collide. |
| Containers.CollisionReflection | classes/container.h:46-76 | Collision in the sphere and in the box is unchanged by reflecting the point through the origin. |
| Containers.ClutchWithinCell | classes/container.h:109-115 | The clutch collides wherever the sphere does, and outside the disc it collides exactly where the sphere does. |
| Containers.ClutchCentreCollides | classes/container.h:109-115 | When the disc spans z == 0, the centre collides. |
| Ranges.RangeIterator.constructor | include/faunus/range.h:64 | An iterator starts at the given value. |
| Ranges.RangeIterator.Deref | include/faunus/range.h:31 | Dereferencing yields the current value. |
| Ranges.RangeIterator.Increment | include/faunus/range.h:33-37 | Prefix ++ advances by one. |
| Ranges.RangeIterator.PostIncrement | include/faunus/range.h:39-44 | Postfix ++ advances by one and hands back the value from before. |
| Ranges.RangeIterator.Plus | include/faunus/range.h:46-51 | it + k is a new iterator k further on; the original is unchanged. |
| Ranges.RangeIterator.Minus | include/faunus/range.h:53-58 | it - k is a new iterator k further back; the original is unchanged. |
| Ranges.ContinuousRange.constructor | include/faunus/range.h:113-115 | ContinuousRange(first, size) has front() == first and size() == size. |
| Ranges.ContinuousRange.Front | include/faunus/range.h:71 | front() is the value the begin iterator holds. |
| Ranges.ContinuousRange.Back | include/faunus/range.h:71-73 | back() == front() + size() - 1. |
| Ranges.ContinuousRange.Empty | include/faunus/range.h:75 | empty() holds exactly when size() <= 0, i.e. when back() < front(). |
| Ranges.ContinuousRange.Find | include/faunus/range.h:106-111 | find(i) holds exactly when front() <= i <= back(); a range that finds anything is not empty. |
| Ranges.ContinuousRange.Clear | include/faunus/range.h:77 | clear() gives the default empty range at 0. |
| Ranges.ContinuousRange.Resize | include/faunus/range.h:80-84 | resize(n) keeps front() and makes size() == n, for the asserted n >= 0. |
| Ranges.ContinuousRange.Size | include/faunus/range.h:86 | size() is how far end lies past begin, and it is positive exactly when begin is before end. |
| Ranges.ContinuousRange.SetFront | include/faunus/range.h:88 | setfront(f) moves only the beginning; the end stays. |
| Ranges.ContinuousRange.SetBack | include/faunus/range.h:90 | setback(b) gives back() == b with front() unchanged. |
| Ranges.ContinuousRange.SetRange | include/faunus/range.h:97-104 | setrange(f, b) gives [f, b] when b >= 0 and the empty range at f when b < 0; the size is never negative, as asserted. |
| Ranges.ContinuousRange.Begin | include/faunus/range.h:67 | begin() points at front(). |
| Ranges.ContinuousRange.End | include/faunus/range.h:69 | end() points one past back(). |
| Ranges.ContinuousRange.Elements | include/faunus/range.h:25-69 | Iterating from begin() to end() yields front(), front() + 1, ..., back() in order: exactly the values find accepts. |
| Spaces.InsertPosition | include/faunus/space.h:246-253 | insert(a, i) lands at the end exactly when i == -1 or i is past the end, and otherwise at i. |
| Spaces.InsertKeepsMembers | include/faunus/space.h:254-257 | After an insertion, each group's shifted bounds cover the particles it covered before, plus the new one when it landed inside the group. |
| Spaces.EraseKeepsMembers | include/faunus/space.h:288-292 | After an erasure, each group's shifted bounds cover the particles it covered before, less the erased one. |
| Spaces.EraseUndoesInsert | include/faunus/space.h:245-294 | Erasing the position just inserted restores the vector and every group bound. |
| Spaces.Space.constructor | include/faunus/space.h:147 | A new Space has no particles and no groups. |
| Spaces.Space.Charge | include/faunus/space.h:155-160 | charge() is the sum of the particle charges. |
| Spaces.Space.FindGroup | include/faunus/space.h:113-118 | findGroup(i) returns the first enrolled group whose range holds i, or null when none does. |
| Spaces.Space.Insert | include/faunus/space.h:245-259 | insert(a, i) puts a into p and trial at the insert position; groups with front > i and groups with back >= i move up by one, and other groups are unchanged. |
| Spaces.Space.Erase | include/faunus/space.h:281-294 | erase(i) returns false and changes nothing past the end; otherwise it removes position i from p and trial and moves each group's bounds after it down by one. |
| Spaces.Space.InsertVector | include/faunus/space.h:214-234 | insert(pin, -1) appends pin to p but not to trial, and returns the group covering the appended particles; an empty pin gives the default empty group. |
| Spaces.Space.Enroll | include/faunus/space.h:457-466 | enroll(g) returns g's position, appending g and synchronising trial with p only when g was not yet listed. |
| AtomTracking.ShiftUp | include/faunus/move.h:2091-2093 | Every tracked position at or past index moves up by one, and the others stay. |
| AtomTracking.ShiftDown | include/faunus/move.h:2111-2113 | Every tracked position past index moves down by one, and the others stay. |
| AtomTracking.FirstHolder | include/faunus/move.h:2102-2109 | The list erase takes index from is one holding it; there is none exactly when no list holds index. |
| AtomTracking.TrackingAfterInsert | include/faunus/move.h:2088-2096 | insert at a position inside the vector, or just past it, keeps every list accurate: each tracked position is a particle of the list's type, with no repeats. |
| AtomTracking.TrackedHolder | include/faunus/move.h:2102-2109 | On accurate lists, the list that erase searches out is the one of the particle's own type. |
| AtomTracking.TrackingAfterErase | include/faunus/move.h:2099-2123 | erase of a tracked particle removes it from its own list and keeps every list accurate. |
| AtomTracking.ShiftUpSkips | include/faunus/move.h:2091-2093 | After the shift up, no list holds index. |
| AtomTracking.ShiftDownUndoesUp | include/faunus/move.h:2091-2113 | Shifting down past index undoes shifting up past it. |
| AtomTracking.InsertedList | include/faunus/move.h:2091-2094 | After insert, the list of the inserted type is its shifted old list followed by index, which it did not hold before. |
| AtomTracking.InsertedHolder | include/faunus/move.h:2094-2109 | After insert, erase's search finds index in the inserted type's list. |
| AtomTracking.EraseUndoesTrackedInsert | include/faunus/move.h:2088-2123 | Erasing the position just inserted gives back every list, except that the inserted type's list now exists. |
| AtomTracking.AppendIsNotTracked | include/faunus/move.h:2088-2096 | insert(a, -1) appends a but records -1, so an accurate one-particle tracker becomes inaccurate. |
| AtomTracking.AtomTracker.constructor | include/faunus/move.h:2069-2070 | The tracker starts on the given Space with no lists. |
| AtomTracking.AtomTracker.Empty | include/faunus/move.h:2049-2051 | empty() holds exactly when no atom type has a list. |
| AtomTracking.AtomTracker.Clear | include/faunus/move.h:2065-2067 | clear() forgets every list and leaves the Space alone. |
| AtomTracking.AtomTracker.Get | include/faunus/move.h:2079-2081 | operator[](id) returns the list of id, creating it empty when it is missing. |
| AtomTracking.AtomTracker.Insert | include/faunus/move.h:2088-2096 | The particle goes into the Space as Space::insert puts it, every tracked position at or past index moves up, and index joins the list of a's type; accurate lists stay accurate. |
| AtomTracking.AtomTracker.RemoveFirst | include/faunus/move.h:2101-2109 | The search stops at the first list, in ascending type order, that holds index, and removes the first occurrence; it reports whether one was found. |
| AtomTracking.AtomTracker.Erase | include/faunus/move.h:2099-2123 | The particle leaves the Space, index leaves the first list holding it, and positions past it move down only when it was found; accurate lists stay accurate. |
| MoveBase.NothingAccepted | include/faunus/move.h:284-303 | When every trial is rejected, no acceptance is counted and move returns 0. |
| MoveBase.AlternateEnergyCounts | include/faunus/move.h:294-297 | With useAlternateReturnEnergy set, the returned energy is alternateReturnEnergy once per accepted trial. |
| MoveBase.Metropolis | include/faunus/move.h:316-320 | A move is rejected exactly when the uniform draw exceeds the Boltzmann factor. |
| MoveBase.DownhillAccepted | include/faunus/move.h:316-320 | A move that does not raise the energy is accepted for every draw in [0, 1). |
| MoveBase.Movebase.constructor | include/faunus/move.h:227-237 | The counters and dusum start at 0, runfraction at 1, and the alternate energy is off. |
| MoveBase.Movebase.TrialMove | include/faunus/move.h:243-246 | trialMove() counts one more trial and changes nothing else. |
| MoveBase.Movebase.AcceptMove | include/faunus/move.h:249-252 | acceptMove() counts one more acceptance and changes nothing else. |
| MoveBase.Movebase.Move | include/faunus/move.h:284-303 | move(n) does nothing unless run() succeeds; otherwise each of n trials is followed by exactly one accept or reject, and a trial is accepted exactly when metropolis holds for its draw and Boltzmann factor. Acceptances never outnumber trials. The reported energies of accepted trials are returned and also added to dusum. A run of downhill trials with uniform draws is accepted in full. |
| MoveBase.Decisions | include/faunus/move.h:288-291 | Trial k of a run is accepted exactly when metropolis holds for its own draw and Boltzmann factor, one outcome per trial. |
| MoveBase.DownhillRunAccepted | include/faunus/move.h:284-320 | When every one of the first n trials does not raise the energy and every draw is uniform in [0, 1), all n are accepted. |
| MoveBase.UphillRejectable | include/faunus/move.h:316-320 | An uphill trial has a Boltzmann factor strictly between 0 and 1, and is rejected exactly when its draw exceeds that factor. |
| MoveBase.Movebase.GetAcceptance | include/faunus/move.h:342-346 | getAcceptance() is accepted over trials, 0 before the first trial, and a fraction in [0, 1]. |
| PolymerMoves.FirstFit | include/faunus/move.h:1480-1484 | The do-while loop stops at the first drawn axis whose length lies in [minlen, maxlen]. |
| PolymerMoves.DrawAxis | include/faunus/move.h:1480-1484 | Drawing until an axis fits ends at the first fitting draw. |
| PolymerMoves.CrankSelectionShape | include/faunus/move.h:1489-1494 | For a fitting axis, the crankshaft rotates |beg - end| - 1 particles, between minlen and maxlen of them, strictly between the two ends. |
| PolymerMoves.CrankShaft.constructor | include/faunus/move.h:1402-1408 | minlen and maxlen are set as read, for the asserted minlen <= maxlen, and there are no particles to rotate yet. |
| PolymerMoves.CrankShaft.FindParticles | include/faunus/move.h:1476-1494 | index becomes the particles strictly between the ends of the first fitting axis, and their number lies in [minlen, maxlen]. |
| PolymerMoves.PivotSideShape | include/faunus/move.h:1559-1564 | Each side of a pivot end is a run of consecutive group members ending at back or starting at front, and it never holds the end itself. |
| PolymerMoves.PivotSelectionShape | include/faunus/move.h:1549-1569 | When every drawn end lies in the group, the pivot rotates a non-empty run of consecutive members that ends at back or starts at front. |
| PolymerMoves.PivotStep | include/faunus/move.h:1552-1565 | One round of the outer loop either takes the coin's side or, when that side is empty, restarts after the draws it used. |
| PolymerMoves.Pivot.constructor | include/faunus/move.h:1543-1546 | The pivot keeps maxlen and sets minlen to 1. |
| PolymerMoves.Pivot.CollectSide | include/faunus/move.h:1559-1564 | The push_back loops collect the side the coin picks. |
| PolymerMoves.Pivot.FindParticles | include/faunus/move.h:1549-1569 | index becomes the first non-empty side selected by the draws and coins. |
| Tempering.PartnerOf | include/faunus/move.h:2429-2439 | The partner is rank + 1 or rank - 1, never below -1. It is the rank above exactly when the rank's parity matches the coin: even with an up coin, odd with a down coin. |
| Tempering.PartnerIsNeighbour | include/faunus/move.h:2429-2439 | The partner is a neighbouring rank, never the rank itself; the lower of the two is even for an up coin and odd for a down coin. |
| Tempering.PartnersAreMutual | include/faunus/move.h:2429-2439 | Two ranks that see the same coin pick each other. |
| Tempering.ParallelTempering.constructor | include/faunus/move.h:2408 | There is no partner (-1) before the first search. |
| Tempering.ParallelTempering.FindPartner | include/faunus/move.h:2429-2439 | findPartner() sets the partner for the coin "draw > 1/2". |
| Tempering.ParallelTempering.GoodPartner | include/faunus/move.h:2443-2450 | goodPartner() holds exactly when the partner is an existing rank other than this one. |
| Tempering.GoodPartnersAgree | include/faunus/move.h:2429-2450 | When rank's partner is good, rank is a good partner for it in turn. |
| Nbody.Molecular | include/faunus/move.h:986-988 | Exactly the molecular members of v, kept in v's order. |
| Nbody.TranslateRotateNbody.AddRow | include/faunus/move.h:989-990 | The inner loop adds the ordered pairs of i with every member of v. |
| Nbody.TranslateRotateNbody.Ascending | include/faunus/move.h:992-993 | Copying the set gives each of its pairs once, in ascending std::pair order. |
| Nbody.TranslateRotateNbody.SetGroup | include/faunus/move.h:982-998 | gVec becomes the molecular groups of v in order, and pairlist becomes every unordered pair of members of v, self-pairs included, each once, in ascending order. |
| Auxiliary.MakeOPair | include/faunus/auxiliary.h:41-44 | The smaller element goes first, and the pair holds the two arguments in some order. |
| Auxiliary.MakeOPairSymmetric | include/faunus/auxiliary.h:27-44 | opair(a, b) == opair(b, a). |
| Auxiliary.MakeOPairInjective | include/faunus/auxiliary.h:41-44 | Two ordered pairs are equal exactly when they are built from the same two elements. |
| Auxiliary.OPairFind | include/faunus/auxiliary.h:46-52 | find(i) holds exactly when i is the first or the second element. |
| Auxiliary.OPairFindMembers | include/faunus/auxiliary.h:46-52 | find(i) holds exactly when i is one of the two elements. |
| Auxiliary.Str2Bool | include/faunus/auxiliary.h:178-183 | "yes" and "true" give true, "no" and "false" give false, and any other string gives the fallback. |
| Auxiliary.Str2BoolFallback | include/faunus/auxiliary.h:178-183 | "yes" and "true" read as true and "no" and "false" as false; the fallback decides exactly for every other string. |
| Auxiliary.PairList.Add | include/faunus/auxiliary.h:85-89 | add(i, j, d) stores d under opair(i, j) and adds both (i, j) and (j, i) to mlist; both orders then read d. |
| Auxiliary.PairList.Clear | include/faunus/auxiliary.h:99-102 | clear() empties both containers. |
| Auxiliary.MapIJ.At | include/faunus/auxiliary.h:109-111 | operator()(i, j) returns the entry under opair(i, j), inserting the default when it is missing. |
| Auxiliary.MapIJ.Put | include/faunus/auxiliary.h:109-111 | Writing through the returned reference stores the value under opair(i, j). |
| Auxiliary.MapIJ.Find | include/faunus/auxiliary.h:115-120 | find(i, j) finds an entry exactly when opair(i, j) is a key, and returns that entry. |
| Auxiliary.MapIJSymmetric | include/faunus/auxiliary.h:109-120 | (i, j) and (j, i) address the same entry, and find sees it from both sides. |
| Auxiliary.PairOrderExact | include/faunus/auxiliary.h:17-25 | for_each_pair visits exactly the position pairs i < j, in strictly increasing lexicographic order, so none is repeated. |
| Auxiliary.VisitRow | include/faunus/auxiliary.h:22-23 | The inner loop folds row i into the accumulator, after the rows before it. |
| Auxiliary.ForEachPair | include/faunus/auxiliary.h:17-25 | The nested loop folds f over the visited pairs in that order. |
| Auxiliary.SumCarriesStart | include/faunus/auxiliary.h:20-23 | With std::plus, whatever the accumulator holds at the start is added to the sum of the pair terms. |
| Auxiliary.SumNonNegative | include/faunus/auxiliary.h:17-25 | A pair sum from 0 whose terms are all non-negative is non-negative. |
| Auxiliary.UninitialisedAccumulatorCounterexample | include/faunus/auxiliary.h:20 | With the accumulator left holding 7, the pair sum of [1, 2] under the product is 9 instead of its one term 2. |
| Auxiliary.PairSum | include/faunus/auxiliary.h:17-25 | for_each_pair with std::plus and the accumulator value-initialised to 0 gives the sum over pairs i < j. That sum is 0 below two elements and non-negative for non-negative terms. The as-written fold from any start value is that value plus this sum. |
| Mpi.SplitEven | include/faunus/mpi.h:73-80 | Rank i gets the inclusive range from N*i/M to (N*i + N)/M - 1, which is never reversed by more than one. |
| Mpi.SplitEvenEnds | include/faunus/mpi.h:73-80 | Rank 0 starts at item 0, and the last rank ends at item N - 1. |
| Mpi.SplitEvenAdjacent | include/faunus/mpi.h:73-80 | Each rank ends just before the next one starts. |
| Mpi.ShareIsEven | include/faunus/mpi.h:73-80 | Every share is N/M rounded down or rounded up. |
| Mpi.SplitEvenMonotone | include/faunus/mpi.h:73-80 | A later rank never starts before an earlier one. |
| Mpi.SharesSum | include/faunus/mpi.h:73-80 | The first k shares add up to rank k's start, and all M shares add up to N. |
| Mpi.SharesDisjoint | include/faunus/mpi.h:73-80 | An earlier rank's range ends before a later rank's range starts. |
| Mpi.SplitEvenPartition | include/faunus/mpi.h:73-80 | Every item 0 .. N-1 belongs to exactly one rank. |
| Mpi.FewItemsEmptyShare | include/faunus/mpi.h:73-80 | With fewer items than ranks, rank 0 gets an empty range. |
| Mpi.SplitEvenUnsigned | include/faunus/mpi.h:73-80 | The same split in the size_t arithmetic of every caller, modulo 2^64. |
| Mpi.UnsignedShareWraps | include/faunus/mpi.h:73-80 | With fewer items than ranks, rank 0's unsigned end wraps to 2^64 - 1, which is past the last item. |
| Mpi.OneItemTwoRanks | include/faunus/mpi.h:73-80 | For one item on two ranks, rank 0's unsigned range spans 2^64 indices, where the signed split gives it none. |
| Mpi.UnsignedAgreesOtherwise | include/faunus/mpi.h:73-80 | When the end does not wrap, the unsigned and the signed splits agree. |
| Mpi.Width | include/faunus/mpi.h:144 | A particle takes 3, 4 or 5 floats depending on the format. |
| Mpi.FormatOfName | src/mpi.cpp:81-87 | setFormat(string) maps "XYZQ" to XYZQ, "XYZ" to XYZ, and every other string to XYZQI. |
| Mpi.FormatNameRoundTrip | src/mpi.cpp:81-87 | Every format can be selected by its name. |
| Mpi.Encode | src/mpi.cpp:105-113 | One particle gives x, y, z, then its charge and id as the format asks: width-many floats. |
| Mpi.Pack | src/mpi.cpp:104-114 | The particle part of the buffer is width times the number of particles long. |
| Mpi.Decode | src/mpi.cpp:149-157 | buf2pvec overwrites the position, plus the charge (and the truncated id) as the format carries them, and keeps every other field. |
| Mpi.Unpack | src/mpi.cpp:148-158 | Unpacking keeps the destination's length. |
| Mpi.DecodeEncode | src/mpi.cpp:102-158 | Decoding a particle's encoding carries over exactly the fields the format sends. |
| Mpi.UnpackPack | src/mpi.cpp:102-160 | Unpacking any buffer that starts with the packed source, onto a vector of the same length, carries every particle's sent fields. |
| Mpi.ExtrasFollow | src/mpi.cpp:115-116 | The extra floats follow the particle part unchanged. |
| Mpi.ParticleTransmitter.constructor | src/mpi.cpp:75-77 | A new transmitter uses XYZQI. |
| Mpi.ParticleTransmitter.SetFormat | src/mpi.cpp:79 | setFormat(d) sets the format and nothing else. |
| Mpi.ParticleTransmitter.SetFormatName | src/mpi.cpp:81-87 | setFormat(s) selects the format named by s, and XYZQI for any other name. |
| Mpi.ParticleTransmitter.GetFormat | src/mpi.cpp:89 | getFormat() returns the format. |
| Mpi.ParticleTransmitter.PushParticle | src/mpi.cpp:105-113 | The pushes for one particle append its encoding. |
| Mpi.ParticleTransmitter.PushExtras | src/mpi.cpp:115-116 | Every extra float is appended in turn. |
| Mpi.ParticleTransmitter.Pvec2Buf | src/mpi.cpp:102-117 | Because the buffer is cleared first, it becomes the packed particles followed by the extras, whatever it held before. |
| Mpi.ParticleTransmitter.Send | src/mpi.cpp:96-100 | send fills the buffer as pvec2buf does, for a destination that is a rank of the communicator. |
| Mpi.ParticleTransmitter.Recv | src/mpi.cpp:124-139 | recv remembers the destination and sizes the receive buffer to width times the destination's length plus the number of extras; recvExtra gets one slot per extra. |
| Mpi.ParticleTransmitter.ReadParticle | src/mpi.cpp:149-157 | One particle is decoded from the chunk at the read position, and the position moves on by the width. |
| Mpi.ParticleTransmitter.ReadExtras | src/mpi.cpp:159-160 | The extras are read in turn from what follows. |
| Mpi.ParticleTransmitter.ReadParticles | src/mpi.cpp:148-158 | Each destination particle is decoded from its own chunk; the read position ends after the last chunk. |
| Mpi.ParticleTransmitter.Buf2Pvec | src/mpi.cpp:146-164 | The particles are decoded, the extras are read from the floats after them, and the result says whether the buffer was consumed exactly. |
| Mpi.ParticleTransmitter.WaitRecv | src/mpi.cpp:141-144 | On a buffer sized by recv, the message is decoded into the remembered destination and consumed to its end. |
| Mpi.TransmitRoundTrip | src/mpi.cpp:102-164 | End to end, the receiver carries every particle's sent fields and gets the sender's extras back unchanged. |
| Ran2.SchrageInRange | src/slump.cpp:19-22 | When m == a*q + r and (x div q)*r < m, the Schrage step lands in [0, m). |
| Ran2.SchrageIsMod | src/slump.cpp:19-22 | Under the same conditions, the Schrage step is a*x mod m, computed without forming a*x. |
| Ran2.SchrageFitsInt | src/slump.cpp:19-26 | Every intermediate of both generators' steps stays inside the 32-bit int range. |
| Ran2.Step1 | src/slump.cpp:19-22 | The first generator's step lands below IM1. |
| Ran2.Step2 | src/slump.cpp:23-26 | The second generator's step lands below IM2. |
| Ran2.Step1IsMod | src/slump.cpp:19-22 | The first generator's step is multiplication by IA1 modulo IM1. |
| Ran2.Step2IsMod | src/slump.cpp:23-26 | The second generator's step is multiplication by IA2 modulo IM2. |
| Ran2.Iter | src/slump.cpp:45-52 | Repeated steps stay 32-bit non-negative, and below IM1 after the first. |
| Ran2.SeedStart | src/slump.cpp:42-44 | A non-positive seed starts from 1 when it is 0 and from -s otherwise: always positive. |
| Ran2.SeedTable | src/slump.cpp:45-52 | The shuffle table holds NTAB values below IM1. |
| Ran2.Shuffled | src/slump.cpp:28-31 | The shuffled output lies in [1, IMM1]. |
| Ran2.TableIndexInRange | src/slump.cpp:27 | Any output divided by NDIV is a valid table index. |
| Ran2.Output | src/slump.cpp:33-37 | The double returned is strictly inside (0, 1) and at most RNMX. |
| Ran2.RandomRan2.constructor | src/slump.cpp:6-13 | The constructor seeds with -13: both generators start from 13 and the table is filled. |
| Ran2.RandomRan2.Seed | src/slump.cpp:40-55 | A positive seed only sets idum; otherwise both generators start from SeedStart(s), NTAB + 8 steps fill the table from its end, and iy takes iv[0]. |
| Ran2.RandomRan2.FillTable | src/slump.cpp:45-53 | The countdown loop makes NTAB + 8 steps, storing the last NTAB from the end of the table. |
| Ran2.RandomRan2.Draw | src/slump.cpp:19-37 | Both generators advance, the table entry picked by the previous output takes the new idum, and the old entry less idum2 becomes the output. |
| Ran2.RandomRan2.RandOne | src/slump.cpp:15-38 | _randone keeps the state valid and returns a value strictly inside (0, 1); for a positive idum its seed call does nothing and one draw follows. |
| McLoop.U32 | include/faunus/mcloop.h:85-87 | The unsigned int conversion lands below 2^32 and is the identity on that range. |
| McLoop.MacroRunFromZero | include/faunus/mcloop.h:146-148 | From a fresh counter, call i of macroCnt returns true exactly when i < macro (for fewer than 2^32 calls): true macro times, then false. |
| McLoop.MacroWrapsAtMax | include/faunus/mcloop.h:146-148 | With macro at the largest unsigned value, the counter wraps to 0 and macroCnt keeps returning true. |
| McLoop.MicroRunCounts | include/faunus/mcloop.h:153-158 | From a reset counter, the first micro calls return true and count up. |
| McLoop.MicroCycle | include/faunus/mcloop.h:153-158 | microCnt returns true micro times and then false, and the counter is back at 0. |
| McLoop.MCLoop.constructor | include/faunus/mcloop.h:103-108 | The step counts are stored as unsigned ints and both counters start at 0. |
| McLoop.MCLoop.MacroCnt | include/faunus/mcloop.h:146-148 | macroCnt pre-increments the (wrapping) counter and tests it against macro. |
| McLoop.MCLoop.MicroCnt | include/faunus/mcloop.h:153-158 | microCnt post-increments below micro and returns true, and otherwise resets to 0 and returns false. |
| McLoop.MCLoop.Count | include/faunus/mcloop.h:163-165 | count() is an unsigned value, equal to (cnt_macro - 1) * micro + cnt_micro once the outer loop has started and the value fits. |
| McLoop.MCLoop.GetMacroCnt | include/faunus/mcloop.h:98-100 | getMacroCnt() returns the macro counter. |
| McLoop.CountBeforeStart | include/faunus/mcloop.h:163-165 | Before the first macroCnt, count() wraps to 2^32 - micro. |
| McLoop.MicroSweep | include/faunus/mcloop.h:72-73 | The inner loop runs micro times; each pass sees the next completed-step count, and the loop ends with the counter reset. |
| McLoop.NestedLoop | include/faunus/mcloop.h:71-75 | The documented nested loop runs its body macro * micro times, and the k-th pass sees count() == k + 1. |
| Drift.EnergyDrift.constructor | include/faunus/drift.h:24-26 | delta, initial and drift start at 0. |
| Drift.EnergyDrift.Init | include/faunus/drift.h:28-33 | init(u0) sets initial = u0 and delta = drift = 0, so current() == u0. |
| Drift.EnergyDrift.Current | include/faunus/drift.h:35-37 | current() is the initial energy plus the sum of the changes, and it is the initial energy when there are none. |
| Drift.EnergyDrift.Add | include/faunus/drift.h:39-43 | += du moves current() by exactly du and leaves initial and drift alone. |
| Drift.EnergyDrift.CheckDrift | include/faunus/drift.h:45-48 | The drift is snapshot - current(), it is returned, it is 0 exactly when they agree, and nothing else changes. |
| Drift.AddAll | include/faunus/drift.h:39-43 | A run of += calls moves current() by the sum of the changes. |
| Drift.Track | include/faunus/drift.h:28-43 | After init(u0) and changes du1 .. dun, current() is u0 plus their sum, with zero drift. |
| Json.FirstIn | include/faunus/json.h:50 | find_first_of returns the first position holding any character of the set, or the end when there is none. |
| Json.Truncate | include/faunus/json.h:50-52 | A truncated line is a prefix of the line, free of the marker's characters; it is cut exactly at the first of them, and a line without one is unchanged. |
| Json.LinesHaveNoNewline | include/faunus/json.h:49 | getline never yields a line holding a newline. |
| Json.KeptClean | include/faunus/json.h:50-54 | Every emitted line is non-empty and free of the marker's characters, and there are no more of them than input lines. |
| Json.StripComments | include/faunus/json.h:47-56 | stripComments appends to out the truncated, non-empty lines of the input, in order, each followed by a newline. |
| Json.StrippedHasNoComment | include/faunus/json.h:50-54 | No character of the marker survives in the output. |
| Json.CleanLinesUnchanged | include/faunus/json.h:50-54 | Non-empty lines without marker characters pass through unchanged and in order. |
| Json.CommentLinesDropped | include/faunus/json.h:53-54 | Lines that are empty, or begin with a marker character, contribute nothing. |
| Json.SingleSlashCuts | include/faunus/json.h:47-52 | With the default "//" a single '/' already starts a comment: "a/b" becomes "a". |
| ExternalPotential.NewWall | include/faunus/externalpotential.h:386-393 | The input defaults: type "sqwl", depth 0, threshold 0, and no coordinate function yet. |
| ExternalPotential.SetSurfPositionZ | include/faunus/externalpotential.h:395-401 | From then on the coordinate is the distance along z to the surface; the settings are kept. |
| ExternalPotential.SurfDistance | include/faunus/externalpotential.h:399 | The coordinate is |z - p.z|: non-negative, and 0 exactly on the surface. |
| ExternalPotential.SurfDistanceMirror | include/faunus/externalpotential.h:399 | The distance is the same on both sides of the surface, and does not depend on x and y. |
| ExternalPotential.P2c | include/faunus/externalpotential.h:33-35 | Calling the coordinate function fails exactly while it is still unset (it starts as nullptr). |
| ExternalPotential.LjShapeAtContact | include/faunus/externalpotential.h:354-361 | The Lennard-Jones shape is -1 at contact, where the distance is the radius. |
| ExternalPotential.LjShapeBounded | include/faunus/externalpotential.h:410-414 | The Lennard-Jones shape is never below -1. |
| ExternalPotential.Energy | include/faunus/externalpotential.h:403-418 | The energy is 0 for a non-hydrophobic particle or an unknown type; the square well gives -depth closer than the threshold and 0 beyond it; the Lennard-Jones wall is defined exactly at non-zero distance. |
| ExternalPotential.LjWallMinimum | include/faunus/externalpotential.h:354-361 | A Lennard-Jones wall of non-negative depth never goes below -depth, and it reaches -depth at contact. |
| ExternalPotential.SquareWellValues | include/faunus/externalpotential.h:407-409 | The square well only ever gives -depth or 0, and -depth for a hydrophobic particle inside the threshold. |
| ExternalPotential.LinearEnergy | include/faunus/externalpotential.h:446-455 | The linear wall is 0 for a non-hydrophobic particle and at or beyond the threshold; it is defined exactly for a positive distance, which the source asserts. |
| ExternalPotential.SlopeBounds | include/faunus/externalpotential.h:452 | For a positive depth and 0 < d < threshold, the linear value lies strictly between -depth and 0. |
| ExternalPotential.SlopeIncreasing | include/faunus/externalpotential.h:452 | The linear value rises with distance, strictly when the depth is positive. |
| ExternalPotential.LinearWallIsSlope | include/faunus/externalpotential.h:448-452 | Inside the threshold the linear wall is the slope, so it inherits those bounds. |
| MkInput.KeysAreUpper | src/playground/jmhenriques/mkinput.py:69-91 | Every key of the residue table is an upper-case letter. |
| MkInput.Upper | src/playground/jmhenriques/mkinput.py:96 | upper() maps a-z onto A-Z and keeps every other character. |
| MkInput.ReadLines | src/playground/jmhenriques/mkinput.py:93 | readlines() yields only non-empty lines, since each keeps its newline. |
| MkInput.Lookup | src/playground/jmhenriques/mkinput.py:97 | dict[elem] succeeds exactly for a table key and raises KeyError otherwise. |
| MkInput.AppendLine | src/playground/jmhenriques/mkinput.py:95-97 | The intended inner loop appends the residue names of one line. |
| MkInput.ReadFasta | src/playground/jmhenriques/mkinput.py:61-99 | The intended reader returns NTR, the names of every recognised character of the non-header lines in order, and CTR. |
| MkInput.AppendLineAsWritten | src/playground/jmhenriques/mkinput.py:95-97 | The inner loop as written stops with KeyError at the first lower-case recognised character. |
| MkInput.ReadFastaAsWritten | src/playground/jmhenriques/mkinput.py:61-99 | readFasta as written, with the exception it raises modelled as an error result. |
| MkInput.LineErrorPersists | src/playground/jmhenriques/mkinput.py:95-97 | Once a prefix of a line raises KeyError, the whole line does. |
| MkInput.LinesErrorPersists | src/playground/jmhenriques/mkinput.py:93-97 | Once a prefix of the lines raises KeyError, the whole file does. |
| MkInput.FramedByTermini | src/playground/jmhenriques/mkinput.py:68-98 | The result starts with NTR and ends with CTR. |
| MkInput.FastaLength | src/playground/jmhenriques/mkinput.py:68-98 | The result has two entries more than there are recognised characters in non-header lines. |
| MkInput.HeadersSkipped | src/playground/jmhenriques/mkinput.py:94 | Lines starting with '>' contribute nothing. |
| MkInput.CaseInsensitive | src/playground/jmhenriques/mkinput.py:96-97 | The intended lookup ignores case: a line and its upper-cased copy give the same residues. |
| MkInput.ExampleCaseCodes | src/playground/jmhenriques/mkinput.py:69-97 | 'a' and 'A' both give ALA. |
| MkInput.ExampleVariantCodes | src/playground/jmhenriques/mkinput.py:89-90 | 'X' gives pSE, 'Z' gives nSE, and a newline gives nothing. |
| MkInput.LineAsWrittenAgrees | src/playground/jmhenriques/mkinput.py:95-97 | The code as written succeeds on a line exactly when it has no lower-case recognised character, and then agrees with the intended lookup. |
| MkInput.AsWrittenAgrees | src/playground/jmhenriques/mkinput.py:93-97 | Over a whole file, the code as written raises exactly when a non-header line holds a lower-case table letter, and otherwise agrees with the intended reader. |
| MkInput.LowerCaseRaises | src/playground/jmhenriques/mkinput.py:96-97 | On the sequence "a", the code raises KeyError where the intended reader gives NTR ALA CTR. |

## Left out

- Pair potentials, `hypairpot`, distances and the Boltzmann factor `exp(-du)` are parameters. Their formulas live in files that are not part of this model.
- Floating point is `real`: rounding, NaN and infinity are not modelled. Where the double arithmetic would divide by zero, the model mostly returns an error instead. There are two exceptions, which exclude a zero distance by a `requires`:
  - Interaction.PotentialAt requires every particle to lie apart from the point;
  - Interaction.Potential requires this only when p[j] is charged.

  A zero distance, where the double result would be infinite, is therefore not modelled for these two.
- OpenMP `parallel for` reductions are modelled as sequential sums, in loop order.
- File and stream I/O are replaced by text parameters: the FASTA file, the JSON input and the output stream.
- MPI transport (`sendf`, `recvf`, waiting) is left out; the received message is a parameter of `WaitRecv`.
- The random draws of `run()`, `metropolis()`, `gPtr->random()`, `randHalf()` and the replica coin are parameters, given as sequences of draws. `move()` also takes the Boltzmann factors exp(-du) of its trials as parameters. Each trial's outcome is computed from its draw and factor by Metropolis.
- MoveBase.Movebase.Move: requires each Boltzmann factor to be positive, and at least 1 exactly when its du <= 0, which is what exp(-du) gives; exp itself is not modelled.
- Rotations, translations, `setAxis`, `setMassCenter` and `setMolSize` are geometry with no bookkeeping; they are not modelled.
- Timing, `info()` strings and reports are not modelled. This covers `CountDown`, `MCLoop::timing` and the `Average` statistics of `EnergyDrift`.
- `Space::eraseGroup`, `save`, `load`, `overlap` and `displace` are left out, and so are `AtomTracker::randomAtomType` and `AtomTracker::data::random()` (move.h:2073-2076), both random shuffles.
- `container::randompos`, `povray` and `info` are left out. So are the minimum-image `dist` and `sqdist` of the box, which lives in point.h; point.h is not part of this model.
- The `_randone` result is modelled as the real quotient `AM * iy` capped at RNMX, without double rounding.
- Ranges.ContinuousRange.Resize: requires n >= 0, the source's assertion; a negative size is not modelled.
- Ranges.ContinuousRange.SetRange: requires that the range it sets is not reversed by more than one (b < 0 or f <= b + 1), which is the source's assertion size() >= 0.
- PolymerMoves.CrankShaft.constructor: requires minlen <= maxlen, the assertion after the input is read.
- PolymerMoves.Pivot.constructor: requires minlen <= maxlen, which is the same assertion in the crankshaft base constructor.
- Spaces.Space.InsertVector: requires i == -1, the source's assertion; insertion of a vector at a given position is unimplemented in the source.
- Spaces.Space.InsertVector: for an empty pin, the returned group is taken to be the empty range at 0 that Group's default constructor gives; include/faunus/group.h is not part of this model.
- Containers.Anint: the int conversion is unbounded. The overflow of int(x ± .5) when |x| lies beyond the int range is not modelled.
- Mpi.ParticleTransmitter.Send: requires 0 <= dst < nproc, the source's assertion on the destination rank.
- Mpi.ParticleTransmitter.Recv: requires 0 <= src < nproc, the source's assertion on the source rank.
- Auxiliary.PairList.Get: requires the pair to be present, in place of the source's assertion that the stored pointer is not null. The lookup of a missing pair, which inserts a null entry, is not modelled.
- ExternalPotential.LinearEnergy: the assertion d > 0 on the particle-surface distance becomes an error result. A build without assertions would return -depth for a particle on the surface (d == 0); the model does not give that value.
- Interaction.Potential: the unsigned short index parameter is taken as an index of the vector; its truncation for vectors longer than 65535 is not modelled.
- Interaction.GroupEnergy: requires the group to lie in the vector, because the source has no beg == -1 guard here.
- AtomTracking.AtomTracker.Insert: the debug assertion on the last tracked index of a's type is not modelled. As written, that assertion reads the back of a list that may be empty.
- AtomTracking.AtomTracker.Insert: accuracy of the lists is promised only for an index inside the vector or just past it. For -1 the source records -1, which AppendIsNotTracked exhibits.
- AtomTracking.AtomTracker.Erase: the debug assertions after the search are not modelled; accuracy is proved as a postcondition instead.
- Spaces.Space.Erase: the debug assertions that the index exists and that no group becomes empty are not modelled; the release-build branch for a past-the-end index is.
- PolymerMoves.CrankShaft.FindParticles: the bound minlen <= |index| <= maxlen is stated for minlen >= 0. The source's assertion that minlen fits the molecule is not modelled.
- PolymerMoves.CrankShaft.FindParticles and PolymerMoves.Pivot.FindParticles require the draws to contain a fitting axis (and, for the pivot, a non-empty side). The loops of the source may not terminate otherwise.
- McLoop.NestedLoop: requires macro below 2^32 - 1. At the maximum the unsigned counter wraps and the loop never ends (MacroWrapsAtMax).
- Mpi.Decode: the id is truncated to an unbounded integer; the width of `particle::Tid` is not modelled.
- Mpi.SplitEvenUnsigned: assumes N*i + N does not overflow 64 bits.
- Ran2.RandomRan2.RandOne: the exact new state is stated for a positive idum, which every step keeps. The case idum == 0, which seed would re-seed, is covered only by validity and the output bound.
- Hydrophobic.IntHydrophobic.HyEnergyAt: the nearest-particle term uses the abstract `hypairpot` of the squared distance; the `sqrt` is inside that parameter.
- Auxiliary.ForEachPair: the accumulator starts from a given value, whereas the source leaves it uninitialised. See "## Findings"; Auxiliary.PairSum starts it at 0.
- `legendre`, `invsqrtQuake`, the `exp` and trigonometric approximations of auxiliary.h, ewald.h, and the other external potentials are float approximations; they are not part of this model.

## Findings

| source | as written | input that shows it | evidently intended | confidence | as-written member | corrected member |
|---|---|---|---|---|---|---|
| include/faunus/mpi.h:73-80 | `splitEven` computes `(N*i+N)/M-1` in the caller's type, and every caller passes a `size_t` (move.h:805, 943, 949) | N = 1 item on M = 2 ranks: rank 0's end wraps to 2^64 - 1, and the loop from first to second runs far past the item | an empty range for that rank (end one below start) | not executed | Mpi.OneItemTwoRanks | Mpi.SplitEvenPartition |
| include/faunus/energy.h:247-264 | `hyenergy(p, i)` reads `hymin` before any assignment when `hy` is empty | a system with no hydrophobic particle and one ion | a hydrophobic term of 0 | not executed | Hydrophobic.AsWrittenFailsWithoutHydrophobic | Hydrophobic.IntHydrophobic.HyEnergyAt |
| include/faunus/energy.h:251-254 | past `end_of_protein_one` the loop overwrites `u` and resets `dmin` at every index, not once at the split | hy = [0, 1, 2] split after 0, with terms 1, 2, 3: the first protein's term 1 is overwritten and the terms of hy[1] and hy[2] are added, giving 5 instead of 3 | the nearest particle of each protein, both terms summed | not executed | Hydrophobic.SecondProteinCounterexample | Hydrophobic.NearestIsFirstMinimiser |
| include/faunus/auxiliary.h:20 | `T x;` declares the accumulator without a value, and the first `operation(x, f(*i,*j))` reads it; for the default `T = double` it is uninitialised | positions [1, 2] with f the product: an accumulator that held 7 gives 9 instead of 2, and fewer than two elements return the garbage itself | `T x{}` or `T x = T()`: a start of 0, so the result is the pair sum | not executed | Auxiliary.UninitialisedAccumulatorCounterexample | Auxiliary.PairSum |
| src/playground/jmhenriques/mkinput.py:96-97 | the test uses `elem.upper()` but the lookup uses `dict[elem]` | the sequence line "a" raises KeyError | upper-case lookup: "a" gives ALA | not executed | MkInput.LowerCaseRaises | MkInput.CaseInsensitive |
