# ARISE-Sim builder and simulation core, in Dafny

This project models the logic of ARISE-Sim, a Unity robot-building simulator. The model covers these parts:

- **Builder.** The connection state machine pins a connector of one part onto a complementary connector of another part. The player first picks a connector on the moving part, then one on the stationary part. During the preview the player adjusts the moving part with arrow keys or gizmo handles, then confirms or cancels on a small panel. Confirming merges the two part groups.
- **Move mode.** Axis locks, locked drags, and deleting parts. The newer deletion protects the control hub; the older one does not.
- **Motor labels.** A dialog gives each motor one of six letters, A–F. A letter-to-motor registry lets the simulation find motors by letter.
- **Motors.** The simulated motor's speed, run and stop bookkeeping, and the two-motor drivetrain. The drivetrain drives straight, turns with a steer value, and stops.
- **Saving.** The robot save file and the block-code save file, both loaded back.
- **Simulation.** Copying the built robot into the simulation, re-centring its group and lifting it clear of the ground. The endless floor of tiles follows the robot.
- **Interface.** The part-list category filter, and the guided tutorial in its newer and older versions.

For the builder controller, the gizmo manager and the tutorial manager, the repository carries an older and a newer version. Both are modelled side by side, and lemmas relate the two. Where the newer code is defective (see "Findings"), the state of the newer controller and of the tutorial carries a `Variant`. It chooses the code as written or the corrected code, and the invariants are proved for both.

Modules follow the program's structure:

| Module | Models |
|---|---|
| `Hierarchy` | The builder scene, an arena of transforms. World position is the sum of local offsets. It also holds the group, part, axle and hub lookups and an immediate `Destroy`. |
| `Connectors` | Connector tags. |
| `Merge` | `MergeGroup`. |
| `Poses`, `Gizmo`, `ActionUi` | The preview's pose store, its handles and its panel. |
| `HoleFsm`, `OldHoleFsm` | The two controllers' connection state machines. |
| `MoveRules` | Move mode. |
| `MotorLabels`, `MotorRegistry`, `SimMotors`, `Drivetrain` | The motors. |
| `Trees`, `RobotSave`, `BlockSave`, `SimRobot` | Hierarchy snapshots. |
| `Platform` | The floor of tiles. |
| `PartFilter` | The category filter. |
| `Tutorial` | The tutorial. |
| `Dicts` | A .NET `Dictionary` as its entry slots and free list. A removed key's slot goes to the head of the free list, and the next new key takes it. Enumeration is slot order. |
| `Text` | The name clean-up `Replace("(Clone)", "").Trim()`. |

Several things become parameters of the model:

- Quaternion alignment, sliding and turning are a `Motion` parameter.
- Prefab lookup (`Resources.Load`) is a function from names to optional trees.
- Input polling and raycast results are frame records.
- Renderer bounds are a parameter.
- The tutorial's target lookups are a `resolves` predicate.

## Model

| member | source | states |
|---|---|---|
| Connectors.Socket | Assets/_Scripts/Builder/ControlManager.cs:732-738 | Every inserting connector kind has a socket kind different from itself. |
| Connectors.ComplementaryIsSocket | Assets/_Scripts/Builder/ControlManager.cs:732-738 | Two tags are complementary exactly when one is an inserting kind and the other is that kind's socket. |
| Connectors.ComplementarySymmetric | Assets/_Scripts/Builder/ControlManager.cs:732-738 | Complementarity is symmetric and no tag fits itself. A fitting pair is always one peg-side tag and one hole-side tag (`IsPeg`/`IsHole`, lines 610-611). |
| Connectors.NoCrossFit | Assets/_Scripts/Builder/ControlManager.cs:732-738 | A peg never fits an axle hole, and an axle never fits a peg hole. |
| Hierarchy.GroupRoot | Assets/_Scripts/Builder/ControlManager.cs:767-777 | The group root is an existing ancestor-or-self of the node. |
| Hierarchy.GroupRootIsFirstMarked | Assets/_Scripts/Builder/ControlManager.cs:767-777 | The climb stops at the first ancestor, one to three levels up, whose name contains "Group". Otherwise it stops where the climb ran out. |
| Hierarchy.PartRoot | Assets/_Scripts/Builder/ControlManager.cs:750-764 | The result is the nearest ancestor-or-self on the Parts layer. There is none exactly when no node of the chain is on that layer. |
| Hierarchy.AxlePos | Assets/_Scripts/Builder/ControlManager.cs:779-789 | The result is a direct child whose name contains "AxlePos", or the node itself. It is a child exactly when such a child exists. |
| Hierarchy.FirstNamed | Assets/_Scripts/Builder/ControlManager.cs:779-789 | Finds an id whose name contains the marker, and returns nothing exactly when no id in the list matches. |
| Hierarchy.RotatingHub | Assets/_Scripts/Builder/ControlManager.cs:791-802 | The result is a node named "MotorHub" among at most four nodes of the parent chain. A node without a parent is never examined. |
| Hierarchy.Destroy | Assets/_Scripts/Builder/ControlManager.cs:942 | Removes exactly the node and its descendants. The scene stays well formed, and every survivor keeps its world position. |
| Merge.MoveChildren | Assets/_Scripts/Builder/ControlManager.cs:935-940 | Each child of the donor is re-parented under the target in order. No node changes its world position. |
| Merge.Reanchor | Assets/_Scripts/Builder/ControlManager.cs:944-954 | The group moves onto its first child's position, and the first child's local position becomes zero. No node other than the group moves in the world. |
| Merge.PourInto | Assets/_Scripts/Builder/ControlManager.cs:935-942 | After moving the children and destroying the donor, only the donor is gone. The target lists its own children followed by the donor's, and world positions are kept. |
| Merge.ChooseTarget | Assets/_Scripts/Builder/ControlManager.cs:919-931 | A group holding the control hub receives the parts. Otherwise the group with more children receives them, ties going to the mover's group. |
| Merge.ChooseTargetAsWritten | Assets/_Scripts/Builder/ControlManager.cs:919-931 | The same choice as `ChooseTarget`, but the hub test climbs again from the group root, as the source does. |
| Merge.StandardMerge | Assets/_Scripts/Builder/ControlManager.cs:930-954 | Merging a group with itself changes nothing, and success gives a well-formed scene. The model fails exactly when the target lies inside the donor, a case the source does not check. |
| Merge.StandardMergeAsWritten | Assets/_Scripts/Builder/ControlManager.cs:930-954 | Equals `StandardMerge` for distinct groups. For a group merged with itself it still succeeds. |
| Merge.HubMerge | Assets/_Scripts/Builder/ControlManager.cs:956-964 | Success gives a well-formed scene. The model fails exactly when the hub lies inside the group being moved, a case the source does not check. |
| Merge.MergeGroup | Assets/_Scripts/Builder/ControlManager.cs:905-965 | Every result is well formed. Two parts of one group, with no motor hub in reach, leave the scene unchanged. |
| Merge.MergeGroupAsWritten | Assets/_Scripts/Builder/ControlManager.cs:905-965 | Agrees with `MergeGroup` whenever a motor hub is in reach. |
| Merge.SelfMergeDestroysGroup | Assets/_Scripts/Builder/ControlManager.cs:930-942 | With the two parts in one group, the merge as written destroys the group with both parts. The corrected merge leaves the scene alone. |
| Merge.StandardMergeKeepsParts | Assets/_Scripts/Builder/ControlManager.cs:935-942 | The donor is the only node removed. The target's children are its own followed by the donor's. |
| Merge.StandardMergeKeepsWorld | Assets/_Scripts/Builder/ControlManager.cs:935-954 | Every surviving node except the target keeps its world position. |
| Merge.HubMergeKeepsParts | Assets/_Scripts/Builder/ControlManager.cs:956-964 | The group node is the only node removed, and every part keeps its world position under the hub. |
| Merge.TwoGroupsClimb | Assets/_Scripts/Builder/ControlManager.cs:767-777 | In a robot with two groups, both group roots climb up to "Robot". |
| Merge.HubTestClimbsTooFar | Assets/_Scripts/Builder/ControlManager.cs:740-749 | The double climb misses the hub group, so the as-written choice and the corrected choice pick opposite targets. |
| OldHoleFsm.MergeGroup | Assets/Scripts/Builder/ControlManager.cs:586-623 | Parts with the same parent leave the scene unchanged. A null parent is a fault, and success keeps the scene well formed. |
| OldHoleFsm.MergeMatchesNewer | Assets/Scripts/Builder/ControlManager.cs:586-623 | With parents that are group roots and no hubs, the older merge succeeds exactly when the newer one does, with the same scene. |
| Gizmo.ClearHandles | Assets/_Scripts/Builder/Gizmo/GizmoManager.cs:81-86 | No live handle remains; the hole and its side are kept. |
| Gizmo.ShowHandles | Assets/_Scripts/Builder/Gizmo/GizmoManager.cs:28-79 | Two turning handles, plus the two sliding handles only for an axle. No handle appears twice. |
| Gizmo.Multiplier | Assets/_Scripts/Builder/Gizmo/GizmoManager.cs:88-111 | The sign is -1 exactly when the first connector was the hole. |
| Gizmo.OnHandleClicked | Assets/_Scripts/Builder/Gizmo/GizmoManager.cs:88-111 | Turning handles request a turn of ±45 degrees, and sliding handles a slide of one step either way. |
| Gizmo.OldShowHandles | Assets/Scripts/Builder/Gizmo/GizmoManager.cs:27-71 | Five handles, the up handle twice. |
| Gizmo.OldClearHandles | Assets/Scripts/Builder/Gizmo/GizmoManager.cs:73-78 | No live handle remains. |
| Gizmo.OldOnHandleClicked | Assets/Scripts/Builder/Gizmo/GizmoManager.cs:80-100 | The turning handles, and only they, request turns. |
| Gizmo.PairsAreOpposite | Assets/_Scripts/Builder/Gizmo/GizmoManager.cs:88-111 | In both managers, left and right request opposite adjustments, and so do up and down. |
| Gizmo.NewerAgainstOlder | Assets/Scripts/Builder/Gizmo/GizmoManager.cs:80-100 | The newer turning handles agree with the older ones exactly when the hole was chosen first, and are reversed otherwise. The newer sliding handles agree exactly when the hole was not chosen first, and are reversed otherwise. |
| ActionUi.SetVisible | Assets/_Scripts/Builder/ConnectionActionUIManager.cs:60-65 | Showing or hiding drops both pending requests. |
| ActionUi.Awake | Assets/_Scripts/Builder/ConnectionActionUIManager.cs:10-19 | The panel starts hidden with nothing pending. |
| ActionUi.OnConfirmClicked | Assets/_Scripts/Builder/ConnectionActionUIManager.cs:24-27 | Confirm becomes pending and nothing else changes. |
| ActionUi.OnCancelClicked | Assets/_Scripts/Builder/ConnectionActionUIManager.cs:32-35 | Cancel becomes pending and nothing else changes. |
| ActionUi.ConsumeConfirm | Assets/_Scripts/Builder/ConnectionActionUIManager.cs:40-45 | Reports whether confirm was pending and clears it. |
| ActionUi.ConsumeCancel | Assets/_Scripts/Builder/ConnectionActionUIManager.cs:50-55 | Reports whether cancel was pending and clears it. |
| ActionUi.ConfirmFiresOnce | Assets/_Scripts/Builder/ConnectionActionUIManager.cs:24-55 | A click is delivered by the first poll and never by the second. |
| ActionUi.ConsumeIdle | Assets/_Scripts/Builder/ConnectionActionUIManager.cs:40-55 | Polling with nothing pending changes nothing. |
| ActionUi.RequestsIndependent | Assets/_Scripts/Builder/ConnectionActionUIManager.cs:40-55 | Consuming one request leaves the other intact, in either order. |
| ActionUi.SetVisibleDropsRequests | Assets/_Scripts/Builder/ConnectionActionUIManager.cs:60-65 | A request made before showing or hiding is never delivered. |
| Poses.Snap | Assets/_Scripts/Builder/ControlManager.cs:574-587 | Only the moving root's pose changes, to the alignment of its connector with the target connector. |
| Poses.SetPose | Assets/_Scripts/Builder/ControlManager.cs:717-727 | Setting one pose leaves every other pose alone. |
| MoveRules.AxisLock | Assets/_Scripts/Builder/ControlManager.cs:272-278 | The first pressed key of X, Y and Z toggles its lock. Escape alone clears it, and no key keeps it. |
| MoveRules.AxisToggleTwice | Assets/_Scripts/Builder/ControlManager.cs:272-278 | A key always changes the lock. Pressing it twice restores a lock already on that axis and otherwise frees it. |
| MoveRules.LockedDrag | Assets/_Scripts/Builder/ControlManager.cs:399-406 | With an axis locked, only that coordinate follows the pointer. |
| MoveRules.DragPathKeepsOthers | Assets/_Scripts/Builder/ControlManager.cs:359-421 | However long a locked drag lasts, the unlocked coordinates stay at their start. |
| MoveRules.DeletionVictim | Assets/_Scripts/Builder/ControlManager.cs:283-302 | In a group of several parts the hit part is removed unless its name contains "ControlHub". A lone part's group is removed unless it holds the control hub. |
| MoveRules.Delete | Assets/_Scripts/Builder/ControlManager.cs:283-302 | Without the key or a hit nothing changes. Otherwise only nodes are removed, and the scene stays well formed. |
| MoveRules.DeleteSparesControlHub | Assets/_Scripts/Builder/ControlManager.cs:283-302 | The control hub of the hit part's group survives a deletion. |
| MoveRules.OldDelete | Assets/Scripts/Builder/ControlManager.cs:163-169 | With the key and a hit, exactly the hit part's subtree is removed. |
| MoveRules.OldDeleteRemovesHub | Assets/Scripts/Builder/ControlManager.cs:163-169 | The older deletion removes the hit part even when it is the control hub. |
| HoleFsm.Start | Assets/_Scripts/Builder/ControlManager.cs:702-715 | In either variant, the start state satisfies the invariant, in move mode with the axis free, nothing chosen, no handles and the panel hidden. |
| HoleFsm.ClearAllHoleState | Assets/_Scripts/Builder/ControlManager.cs:702-715 | The handles go, both choices and the moving root are forgotten, and selection starts over. The scene, the poses and snapshots, the panel, the mode, the lock and the label dialog are untouched, and the invariant holds afterwards. |
| HoleFsm.MoveMode | Assets/_Scripts/Builder/ControlManager.cs:219-226 | Unlocks the axis and leaves the session without restoring any pose. The label dialog leaves assign mode with its claims kept, and closes its modal if it was assigning. |
| HoleFsm.HolesMode | Assets/_Scripts/Builder/ControlManager.cs:228-235 | Selection starts over, the lock is kept, and no pose is restored. The label dialog leaves assign mode with its claims kept, and closes its modal if it was assigning. |
| HoleFsm.CancelPressed | Assets/_Scripts/Builder/ControlManager.cs:552-556 | True on Escape or a pending cancel. A pending cancel is consumed only when Escape was not pressed. |
| HoleFsm.ConfirmPressed | Assets/_Scripts/Builder/ControlManager.cs:545-550 | True on Return, keypad Enter or a pending confirm, which is consumed only when no key was pressed. |
| HoleFsm.SnapGroup | Assets/_Scripts/Builder/ControlManager.cs:574-587 | Only the moving group's pose changes. |
| HoleFsm.MoveHoleAlongAxis | Assets/_Scripts/Builder/ControlManager.cs:657-665 | Only the hole and the moving group move. |
| HoleFsm.RotateHoleAroundAxis | Assets/_Scripts/Builder/ControlManager.cs:667-700 | Only the hole and the moving group move. |
| HoleFsm.ApplyRequest | Assets/_Scripts/Builder/ControlManager.cs:657-700 | A handle's request moves only the hole and the moving group. |
| HoleFsm.RotationKeys | Assets/_Scripts/Builder/ControlManager.cs:613-655 | Arrow keys move only the hole and the moving group; with no arrow nothing changes. |
| HoleFsm.CancelPreview | Assets/_Scripts/Builder/ControlManager.cs:717-727 | The moving group and the hole get their snapshot poses back, and nothing else changes. |
| HoleFsm.HubSwap | Assets/_Scripts/Builder/ControlManager.cs:499-503 | The pair is kept or swapped so that, when the first side's group holds the control hub, it ends up stationary. |
| HoleFsm.HubSwapAsWritten | Assets/_Scripts/Builder/ControlManager.cs:493-503 | As in the source, the swap takes the raw hit as the new first connector. |
| HoleFsm.HubSwapSkipsRedirect | Assets/_Scripts/Builder/ControlManager.cs:493-503 | The two swaps agree without an axle redirect. With one, the as-written swap drops the redirected "AxlePos" connector. |
| HoleFsm.AxleSwapFollowsVariant | Assets/_Scripts/Builder/ControlManager.cs:486-503 | For an axle joint whose first side holds the control hub, the redirected first connector becomes the second one. The new first connector is the raw hit as written, and its "AxlePos" child when corrected. |
| HoleFsm.PreviewSnap | Assets/_Scripts/Builder/ControlManager.cs:574-587 | A snapshot is taken only when no part is moving yet. It faults exactly when the connector has no part root. |
| HoleFsm.SecondHit | Assets/_Scripts/Builder/ControlManager.cs:479-522 | A connector that cannot join restarts the selection from it. A joinable one opens the preview with the panel shown and the handles up. The pair comes from the variant's hub swap, as written or corrected. |
| HoleFsm.CommitSnap | Assets/_Scripts/Builder/ControlManager.cs:589-605 | On success the scene is the variant's `MergeGroup`, as written or corrected, of the moving root with the second connector's part root. Selection starts over. |
| HoleFsm.AdjustFrame | Assets/_Scripts/Builder/ControlManager.cs:525-537 | The invariant is kept. A frame with no cancel or confirm only applies the keys. |
| HoleFsm.HandleHoleFsm | Assets/_Scripts/Builder/ControlManager.cs:460-539 | Every state change keeps the invariant. |
| HoleFsm.Events | Assets/_Scripts/Builder/ConnectionActionUIManager.cs:24-35 | Panel clicks set the matching pending request. Handle clicks move only the hole and the moving group. |
| HoleFsm.Step | Assets/_Scripts/Builder/ControlManager.cs:460-539 | A frame keeps the invariant, in both variants. |
| HoleFsm.Run | Assets/_Scripts/Builder/ControlManager.cs:460-539 | Any number of frames keeps the invariant, in both variants. |
| HoleFsm.SecondIgnoresSameOrNothing | Assets/_Scripts/Builder/ControlManager.cs:479-484 | A click on nothing, or on the first connector again, changes nothing. |
| HoleFsm.SecondRestarts | Assets/_Scripts/Builder/ControlManager.cs:486-519 | A click on a connector that cannot join makes it the first choice, and nothing else changes. |
| HoleFsm.SecondPreviews | Assets/_Scripts/Builder/ControlManager.cs:486-515 | A joinable click starts the preview with the panel shown and the handles up. It can fail only for a connector without a part root. |
| HoleFsm.HubSideStays | Assets/_Scripts/Builder/ControlManager.cs:499-503 | For peg joints, the control hub's group is always the stationary side. |
| HoleFsm.CancelPreviewRestores | Assets/_Scripts/Builder/ControlManager.cs:717-727 | Restoring from a snapshot gives back every pose the snapshot was taken from. |
| HoleFsm.AdjustCancels | Assets/_Scripts/Builder/ControlManager.cs:525-531 | A cancelling frame applies its keys, then restores the snapshot and clears the session. |
| HoleFsm.AdjustConfirms | Assets/_Scripts/Builder/ControlManager.cs:532-535 | A confirming frame merges the two groups with the variant's `MergeGroup` and clears the session. |
| HoleFsm.PreviewSnapshots | Assets/_Scripts/Builder/ControlManager.cs:574-587 | Starting a preview snapshots the poses it found. |
| HoleFsm.QuietKeepsPreview | Assets/_Scripts/Builder/ControlManager.cs:525-537 | A frame without cancel or confirm keeps the preview live with the same snapshot. |
| HoleFsm.QuietRunKeepsPreview | Assets/_Scripts/Builder/ControlManager.cs:525-537 | The same holds for any number of such frames. |
| HoleFsm.CancelRestores | Assets/_Scripts/Builder/ControlManager.cs:525-531 | Cancel puts every pose back to the snapshot and clears the handles and the panel. |
| HoleFsm.PreviewCancelRoundTrip | Assets/_Scripts/Builder/ControlManager.cs:479-537 | A preview with any adjustments, then cancelled, leaves every pose as it was before the preview. |
| HoleFsm.RunAppend | Assets/_Scripts/Builder/ControlManager.cs:460-539 | Running two batches of frames is running the first and then the second. |
| HoleFsm.ConfirmMerges | Assets/_Scripts/Builder/ControlManager.cs:532-535 | Confirming a preview yields the scene the variant's `MergeGroup` computes, and starts selection over. |
| OldHoleFsm.ClearAllHoleState | Assets/Scripts/Builder/ControlManager.cs:447-459 | Both choices and the moving part are forgotten, and selection starts over. |
| OldHoleFsm.MoveMode | Assets/Scripts/Builder/ControlManager.cs:107-114 | Unlocks the axis and leaves the session without restoring any pose. |
| OldHoleFsm.HolesMode | Assets/Scripts/Builder/ControlManager.cs:116-122 | Selection starts over and no pose is restored. |
| OldHoleFsm.PartRootOf | Assets/Scripts/Builder/ControlManager.cs:483 | The part root is the connector's parent, and is absent exactly when there is no parent. |
| OldHoleFsm.PreviewSnap | Assets/Scripts/Builder/ControlManager.cs:350-362 | Faults exactly when the first connector has no parent. |
| OldHoleFsm.SecondHit | Assets/Scripts/Builder/ControlManager.cs:294-317 | A complementary tag alone starts the preview. Any other connector restarts the selection from it. |
| OldHoleFsm.TurnKeys | Assets/Scripts/Builder/ControlManager.cs:405-411 | Each arrow turns only the hole's part. With no arrow nothing changes. |
| OldHoleFsm.HoleRoot | Assets/Scripts/Builder/ControlManager.cs:399-400 | The part the arrows turn is an existing node. |
| OldHoleFsm.FlipTarget | Assets/Scripts/Builder/ControlManager.cs:414-420 | F turns whichever chosen connector is a hole. |
| OldHoleFsm.RotationKeys | Assets/Scripts/Builder/ControlManager.cs:387-431 | Only poses change. With no key pressed nothing changes. |
| OldHoleFsm.CancelPreview | Assets/Scripts/Builder/ControlManager.cs:461-470 | Only the moving part's pose is restored. |
| OldHoleFsm.CommitSnap | Assets/Scripts/Builder/ControlManager.cs:364-378 | On success the scene is the older `MergeGroup` of the two parts, and selection starts over. |
| OldHoleFsm.HandleHoleFsm | Assets/Scripts/Builder/ControlManager.cs:275-326 | Every state change keeps the invariant. |
| OldHoleFsm.Step | Assets/Scripts/Builder/ControlManager.cs:275-326 | A frame keeps the invariant. |
| OldHoleFsm.SameGroupStillPreviews | Assets/Scripts/Builder/ControlManager.cs:294-317 | Two complementary connectors of one group still start a preview, which the newer controller would refuse. |
| OldHoleFsm.CancelRestoresMover | Assets/Scripts/Builder/ControlManager.cs:320-324 | Escape restores the moving part and starts selection over. |
| OldHoleFsm.CancelKeepsTurnedHolePart | Assets/Scripts/Builder/ControlManager.cs:387-411 | A turn of the stationary hole part survives a later cancel. |
| OldHoleFsm.CancelKeepsFlippedHole | Assets/Scripts/Builder/ControlManager.cs:414-431 | A flip of a hole connector outside the moving part survives a later cancel. |
| OldHoleFsm.ConfirmMerges | Assets/Scripts/Builder/ControlManager.cs:320-326 | Confirming merges with the older `MergeGroup`. |
| Dicts.Get | Assets/_Scripts/MotorSimulationManager.cs:21-25 | `TryGetValue` finds an entry of the dictionary exactly when the key is present. |
| Dicts.Set | Assets/_Scripts/MotorSimulationManager.cs:16-19 | `d[k] = v` overwrites an existing key in its slot. A new key takes the most recently freed slot, or is appended when none is free. Every other key keeps its slot, and the dictionary stays valid. |
| Dicts.Remove | Assets/_Scripts/MotorSimulationManager.cs:59-62 | Frees exactly the key's slot and puts it at the head of the free list. Every other slot is unchanged, and a missing key changes nothing. |
| Dicts.FirstKeyOf | Assets/_Scripts/MotorSimulationManager.cs:43-63 | Finds a key holding the value, and nothing exactly when no entry holds it. |
| Dicts.FirstKeyOfIsFirst | Assets/_Scripts/MotorSimulationManager.cs:49-57 | The key found sits in the lowest used slot holding the value, which is the first entry in enumeration order. |
| Dicts.SetGet | Assets/_Scripts/MotorSimulationManager.cs:16-19 | After `d[k] = v`, `k` finds `v` and every other key is unchanged. |
| Dicts.RemoveGet | Assets/_Scripts/MotorSimulationManager.cs:43-63 | After `Remove(k)`, `k` is gone and every other key is unchanged. |
| Dicts.RemoveThenAddReusesSlot | Assets/_Scripts/MotorSimulationManager.cs:16-19 | A new key added after a removal takes the removed key's slot, so it is enumerated where the removed key was. |
| MotorRegistry.RegisterMotor | Assets/_Scripts/MotorSimulationManager.cs:16-19 | The registry stays a valid dictionary. |
| MotorRegistry.GetMotor | Assets/_Scripts/MotorSimulationManager.cs:21-25 | Returns null exactly for an unknown letter, and otherwise a registered entry. |
| MotorRegistry.ClearAllMotors | Assets/_Scripts/MotorSimulationManager.cs:27-30 | Afterwards no letter finds a motor. |
| MotorRegistry.ClearMotor | Assets/_Scripts/MotorSimulationManager.cs:43-63 | A null motor is ignored, and the registry stays valid. |
| MotorRegistry.RegisterOverwrites | Assets/_Scripts/MotorSimulationManager.cs:16-25 | The letter finds the new motor and every other letter is unchanged. |
| MotorRegistry.ClearMotorRemovesFirstOnly | Assets/_Scripts/MotorSimulationManager.cs:43-63 | Only the motor's letter in the lowest slot, the first in enumeration order, is forgotten. Every other letter keeps its motor. |
| MotorRegistry.SentinelNeverCleared | Assets/_Scripts/MotorSimulationManager.cs:43-63 | An entry under '\0' is never removed. |
| MotorRegistry.ClearMotorAfterReuse | Assets/_Scripts/MotorSimulationManager.cs:16-63 | With A on motor 1 and B on motor 2, clearing motor 1 and registering C for motor 2 puts C in A's old slot. Clearing motor 2 then removes C, not B, and B keeps motor 2. |
| MotorLabels.LetterAt | Assets/Scripts/Builder/MotorLabelManager.cs:140-152 | Button letters are A to F. |
| MotorLabels.Start | Assets/Scripts/Builder/MotorLabelManager.cs:33-47 | After `Awake` the dialog is not assigning, the modal is hidden and nothing is claimed. |
| MotorLabels.PrepareLetterButtons | Assets/Scripts/Builder/MotorLabelManager.cs:140-152 | A button can be pressed exactly when its letter is free or owned by the target. Confirm is disabled. |
| MotorLabels.CloseModal | Assets/Scripts/Builder/MotorLabelManager.cs:168-176 | Hides the modal and drops the preview and the target. |
| MotorLabels.OnMotorClicked | Assets/Scripts/Builder/MotorLabelManager.cs:65-80 | Ignored outside assign mode. Inside it the motor becomes the target with no preview, and claims are untouched. |
| MotorLabels.SetAssignMode | Assets/Scripts/Builder/MotorLabelManager.cs:86-99 | Setting the current value is a no-op. Leaving assign mode closes the modal. |
| MotorLabels.ToggleAssignMode | Assets/Scripts/Builder/MotorLabelManager.cs:83 | Flips assign mode and keeps the claims. |
| MotorLabels.HighlightSelectedButton | Assets/Scripts/Builder/MotorLabelManager.cs:154-166 | Confirm is enabled exactly when the letter's button can be pressed. |
| MotorLabels.OnLetterPreview | Assets/Scripts/Builder/MotorLabelManager.cs:102-111 | With no target, or a letter owned by another label, nothing changes. Otherwise the letter is previewed on the target. |
| MotorLabels.ConfirmSelection | Assets/Scripts/Builder/MotorLabelManager.cs:114-124 | With a target and a preview, the letter is claimed for the target; otherwise the claims are unchanged. The modal closes either way. |
| MotorLabels.CancelSelection | Assets/Scripts/Builder/MotorLabelManager.cs:126-137 | The target shows its committed letter again, or '?', and the modal closes. |
| MotorLabels.ClaimKeepsOneEach | Assets/Scripts/Builder/MotorLabelManager.cs:114-124 | After a claim, each letter has one owner and each owner one letter. |
| MotorLabels.ConfirmKeepsInv | Assets/Scripts/Builder/MotorLabelManager.cs:114-124 | Confirming keeps that invariant and hands the letter to the target. |
| MotorLabels.ConfirmEnabledByPreview | Assets/Scripts/Builder/MotorLabelManager.cs:65-80 | After a motor click, confirm stays disabled until a pressable letter is previewed. |
| SimMotors.Initial | Assets/_Scripts/Builder/SimMotor.cs:20-23 | A new motor is at full speed, still, with target velocity 0. |
| SimMotors.AwakeRegister | Assets/_Scripts/Builder/SimMotor.cs:30-47 | The motor is registered under its letter only when the letter is not '\0'. |
| SimMotors.Clamp | Assets/_Scripts/Builder/SimMotor.cs:180-185 | `Mathf.Clamp` on reals. |
| SimMotors.SetSpeed | Assets/_Scripts/Builder/SimMotor.cs:180-185 | The speed is ten times the percent, saturating at ±1000. |
| SimMotors.StopMotor | Assets/_Scripts/Builder/SimMotor.cs:172-178 | The motor is not rotating and its target velocity is 0. |
| SimMotors.RotateForever | Assets/_Scripts/Builder/SimMotor.cs:164-171 | The motor rotates at the speed, negated for a backward run. |
| SimMotors.RunForSeconds | Assets/_Scripts/Builder/SimMotor.cs:153-162 | The motor turns during the run and is stopped afterwards. |
| SimMotors.RotateByDegrees | Assets/_Scripts/Builder/SimMotor.cs:71-74 | The motor turns during the run and is stopped afterwards. |
| SimMotors.RotateRotations | Assets/_Scripts/Builder/SimMotor.cs:66-69 | Whole turns are converted to degrees at 360 each. |
| SimMotors.SetMotorLabel | Assets/_Scripts/Builder/SimMotor.cs:54-58 | The letter is stored and finds this motor in the registry. |
| SimMotors.SetSpeedOdd | Assets/_Scripts/Builder/SimMotor.cs:180-185 | The opposite percent gives the opposite speed. |
| SimMotors.ForwardBackwardOpposite | Assets/_Scripts/Builder/SimMotor.cs:164-171 | Forward and backward runs ask for opposite velocities. |
| Drivetrain.NullCheck | Assets/_Scripts/DrivetrainController.cs:137-140 | True exactly when a motor is missing. |
| Drivetrain.SetSpeedPercent | Assets/_Scripts/DrivetrainController.cs:15-21 | The percent is recorded even with a motor missing. Only with both motors present is it applied to them. |
| Drivetrain.AssignMotorsByLabel | Assets/_Scripts/DrivetrainController.cs:23-30 | Both motors are looked up by letter, and the percent is kept. |
| Drivetrain.Orders | Assets/_Scripts/DrivetrainController.cs:33-108 | The right motor always gets the opposite of the left motor's order. |
| Drivetrain.Start | Assets/_Scripts/DrivetrainController.cs:33-108 | With a motor missing, a command does nothing. With two different motors, a drive starts the left motor on its order and the right one on the opposite order. A turn first sets each wheel to its `CalcTurnSpeed` value. No other motor changes. |
| Drivetrain.Stop | Assets/_Scripts/DrivetrainController.cs:110-116 | With both motors present, both are stopped at the straight-line speed. |
| Drivetrain.Finish | Assets/_Scripts/DrivetrainController.cs:33-95 | With a motor missing, finishing a command does nothing. |
| Drivetrain.StopAll | Assets/_Scripts/MotorSimulationManager.cs:32-39 | Completes exactly when every registered motor still exists, and then every registered motor and both drivetrain motors are stopped. Otherwise `StopMotor` on the first destroyed motor throws, and only the motors registered before it are stopped. |
| Drivetrain.StopValues | Assets/_Scripts/MotorSimulationManager.cs:34-37 | The loop stops the registered motors in enumeration order. It halts at the first destroyed one, and finishes exactly when there is none. |
| Drivetrain.StaleLetterBreaksStopAll | Assets/_Scripts/MotorSimulationManager.cs:32-63 | A motor registered under two letters keeps one of them after `ClearMotor`. Once that motor is destroyed, stopping all motors halts and the drivetrain is never stopped. |
| Drivetrain.OppositeInvolutive | Assets/_Scripts/DrivetrainController.cs:33-108 | Reversing twice gives the order back. An order equals its own reverse only for a zero-degree turn. |
| Drivetrain.CalcTurnSpeed | Assets/_Scripts/DrivetrainController.cs:117-136 | Steering right keeps the left wheel at the percent, and steering left keeps the right one. Within a steer of ±100, neither wheel is faster than the percent in either direction. |
| Drivetrain.StraightTurn | Assets/_Scripts/DrivetrainController.cs:117-136 | Straight ahead, both wheels run at the percent. |
| Drivetrain.TurnSpeeds | Assets/_Scripts/DrivetrainController.cs:117-136 | The outer wheel keeps the percent. Steer 50 stops the inner wheel, and steer 100 reverses it. |
| Drivetrain.TurnMirror | Assets/_Scripts/DrivetrainController.cs:117-136 | Steering the other way swaps the wheels. |
| Drivetrain.StartOpposes | Assets/_Scripts/DrivetrainController.cs:33-108 | Once a command starts, both wheels turn. A timed or endless command runs the right wheel the other way round from the left, each at its own speed, so a straight drive on motors of equal speed gives opposite target velocities. |
| Drivetrain.TurnRestoresSpeed | Assets/_Scripts/DrivetrainController.cs:79-116 | A timed turn leaves both wheels stopped at the straight-line speed. |
| Text.Trim | Assets/_Scripts/Saving/Robot/RobotSaveManager.cs:59 | The result is a middle part of the input with no white space at either end. Everything cut off on both sides is white space. |
| Text.RemoveAll | Assets/_Scripts/Saving/Robot/RobotSaveManager.cs:59 | `Replace(pattern, "")` never makes the name longer. |
| Text.RemoveAllOnlyRemoves | Assets/_Scripts/Saving/Robot/RobotSaveManager.cs:59 | `Replace(pattern, "")` only takes characters away: no character occurs in the result more often than in the input. |
| Text.RemoveAllAbsent | Assets/_Scripts/Saving/Robot/RobotSaveManager.cs:59 | A pattern that does not occur leaves the string unchanged. |
| Text.StripClone | Assets/_Scripts/Saving/Robot/RobotSaveManager.cs:59 | A cleaned name is trimmed. |
| Text.TrimIdempotent | Assets/_Scripts/Saving/Robot/RobotLoadManager.cs:86 | Trimming twice is trimming once. |
| Text.StripCloneOfCopy | Assets/_Scripts/Saving/Robot/RobotLoadManager.cs:86 | The name of an instantiated copy cleans to the name of its prefab. |
| Text.StripCloneFixed | Assets/_Scripts/Saving/Robot/RobotLoadManager.cs:86 | A trimmed name without the clone suffix cleans to itself. |
| Trees.FindChild | Assets/_Scripts/Saving/Robot/RobotSaveManager.cs:23 | `Transform.Find` returns the first direct child with the name, and nothing exactly when none has it. |
| RobotSave.SavePart | Assets/_Scripts/Saving/Robot/RobotSaveManager.cs:52-79 | A part saves with its cleaned name and local pose. It is a hub record exactly when it has a "MotorHub" child, and only a hub record has child records, at most one per hub child. |
| RobotSave.SaveGroup | Assets/_Scripts/Saving/Robot/RobotSaveManager.cs:27-44 | A group saves with its name and pose, and record i is child i saved as a part, in order. |
| RobotSave.SaveRobot | Assets/_Scripts/Saving/Robot/RobotSaveManager.cs:21-49 | Gives the empty text exactly when there is no "Robot" child. Otherwise it saves one record per group. |
| RobotSave.LoadPart | Assets/_Scripts/Saving/Robot/RobotLoadManager.cs:70-105 | A record is skipped exactly when its name is empty or no prefab has that name. |
| RobotSave.LoadGroup | Assets/_Scripts/Saving/Robot/RobotLoadManager.cs:55-66 | A group gets the cleaned name, the saved pose, and its loaded parts. |
| RobotSave.LoadRobot | Assets/_Scripts/Saving/Robot/RobotLoadManager.cs:30-68 | Empty text leaves the build alone. Any other text replaces the build by a fresh "Robot". |
| RobotSave.SaveHubChildrenAllParts | Assets/_Scripts/Saving/Robot/RobotSaveManager.cs:66-76 | Under a hub whose children are all parts, every child is saved. |
| RobotSave.PartRoundTrip | Assets/_Scripts/Saving/Robot/RobotLoadManager.cs:70-105 | Loading a restorable record and saving it gives the record back. |
| RobotSave.PartsRoundTrip | Assets/_Scripts/Saving/Robot/RobotLoadManager.cs:70-105 | Loading restorable records and saving them gives the records back. |
| RobotSave.RobotRoundTrip | Assets/_Scripts/Saving/Robot/RobotLoadManager.cs:30-68 | Loading a save of clean groups and restorable parts and saving it again gives the same save. |
| RobotSave.NullTextEmptiesRobot | Assets/_Scripts/Saving/Robot/RobotLoadManager.cs:38-54 | A text that parses to null leaves an empty "Robot". |
| RobotSave.LoadPartsAppend | Assets/_Scripts/Saving/Robot/RobotLoadManager.cs:55-66 | Loading two runs of records is loading each in turn. |
| RobotSave.SkippedPartVanishes | Assets/_Scripts/Saving/Robot/RobotLoadManager.cs:72-83 | A record that cannot load contributes nothing, and its siblings still load. |
| BlockSave.SaveBlockChain | Assets/_Scripts/Saving/Code/BlockSaveManager.cs:43-68 | A block saves with its cleaned name, its local x and y, and its inputs (empty without an input component). It has a next block exactly when a child is tagged Block, and that next block is the last such child saved the same way. |
| BlockSave.LastBlockChild | Assets/_Scripts/Saving/Code/BlockSaveManager.cs:60-66 | Finds the last child tagged Block, and nothing exactly when no child is. |
| BlockSave.SaveBlockCode | Assets/_Scripts/Saving/Code/BlockSaveManager.cs:70-83 | At most one chain is saved per child of the coding area. |
| BlockSave.SpawnBlockChain | Assets/_Scripts/Saving/Code/BlockSaveManager.cs:134-157 | Nothing spawns exactly when the prefab is unknown. A spawned block is tagged Block and placed at the saved position with z = 0. Its input component keeps its own field names, and each field takes the saved text when there is one. |
| BlockSave.LoadInputs | Assets/_Scripts/Saving/Code/BlockSaveManager.cs:150-152 | `LoadInputs`, as the motor-speed block writes it (`SetMotorSpeedBlock.cs`, lines 19-26): each of the component's fields takes the saved text under its name, or keeps its value. Saved names it has no field for are ignored. |
| BlockSave.LoadSavedInputs | Assets/_Scripts/Saving/Code/BlockSaveManager.cs:54-55 | Saved inputs that name exactly the component's fields load as they are, so saving gives them back. |
| BlockSave.UnknownInputsDropped | Assets/_Scripts/Saving/Code/BlockSaveManager.cs:150-152 | For the motor-speed block, a saved name it has no field for is not saved back, and a missing one keeps the prefab's value. |
| BlockSave.LoadBlockCode | Assets/_Scripts/Saving/Code/BlockSaveManager.cs:119-132 | The area is always cleared, and loading fails exactly when the text parses to null. Otherwise each chain is spawned. |
| BlockSave.ChainRoundTrip | Assets/_Scripts/Saving/Code/BlockSaveManager.cs:43-68 | Spawning a restorable chain and saving it gives the chain back. Restorable means, among other things, that each block's saved inputs name exactly its component's fields. |
| BlockSave.ChainsRoundTrip | Assets/_Scripts/Saving/Code/BlockSaveManager.cs:70-83 | Spawning chains whose first blocks start a chain, then saving, gives the chains back. |
| BlockSave.CodeRoundTrip | Assets/_Scripts/Saving/Code/BlockSaveManager.cs:119-132 | Loading a list of such chains and saving the area gives the list back. |
| BlockSave.LooseBlockNotSaved | Assets/_Scripts/Saving/Code/BlockSaveManager.cs:76-80 | A block not on a StartBlock layer is not saved, wherever it sits. |
| SimRobot.FindRobot | Assets/_Scripts/Sim/SimRobotManager.cs:104-112 | Returns the first object in pre-order, the root included, whose name contains "Robot", and nothing exactly when there is none. |
| SimRobot.GroupToCopy | Assets/_Scripts/Sim/SimRobotManager.cs:17-29 | Returns the first group child with an object named "ControlHub", and nothing exactly when there is none. |
| SimRobot.RemoveRobotFinds | Assets/_Scripts/Sim/SimRobotManager.cs:40-44 | Removal finds something exactly when the search does. |
| SimRobot.Place | Assets/_Scripts/Sim/SimRobotManager.cs:40-51 | The copy becomes the last child. A target whose own name contains "Robot" destroys itself. |
| SimRobot.SecondSpawnReplacesFirst | Assets/_Scripts/Sim/SimRobotManager.cs:40-51 | Spawning twice leaves only the second copy. |
| SimRobot.CenterGroupOnChildren | Assets/_Scripts/Sim/SimRobotManager.cs:85-102 | A group without children is unchanged. Otherwise only local positions change. |
| SimRobot.CenterKeepsChildren | Assets/_Scripts/Sim/SimRobotManager.cs:85-102 | Centring keeps every child's world position. |
| SimRobot.CenteredChildrenAverageZero | Assets/_Scripts/Sim/SimRobotManager.cs:85-102 | After centring, the children's local positions sum to zero, so the group sits at their mean. |
| SimRobot.GroundY | Assets/_Scripts/Sim/SimRobotManager.cs:54-58 | Without a Plane the ground is at height 0. |
| SimRobot.Lift | Assets/_Scripts/Sim/SimRobotManager.cs:59-65 | A copy is raised only when its bounds reach below the ground, and then exactly onto it. |
| SimRobot.SpawnSimulationRobot | Assets/_Scripts/Sim/SimRobotManager.cs:8-84 | Nothing happens exactly when there is no robot or no group with the control hub. |
| Platform.RoundToInt | Assets/_Scripts/Sim/InfinitePlatformManager.cs:34-35 | The nearest integer, with a tie going to the even neighbour. |
| Platform.Layout | Assets/_Scripts/Sim/InfinitePlatformManager.cs:41-49 | A square of gridSize by gridSize tiles around the centre tile. |
| Platform.Start | Assets/_Scripts/Sim/InfinitePlatformManager.cs:12-29 | The starting floor is the layout centred on the origin tile. |
| Platform.Update | Assets/_Scripts/Sim/InfinitePlatformManager.cs:31-52 | The floor is a gridSize by gridSize layout at height 0 around some tile. `Platform.MiddleTileUnderRobot` states that this tile is under the robot. |
| Platform.UpdateAtOriginIsStart | Assets/_Scripts/Sim/InfinitePlatformManager.cs:31-52 | With the robot over the origin tile, the floor is the starting one. |
| Platform.MiddleTileUnderRobot | Assets/_Scripts/Sim/InfinitePlatformManager.cs:31-52 | For any non-empty grid, odd or even, the middle tile is within half a tile of the robot. |
| Platform.TilesDistinct | Assets/_Scripts/Sim/InfinitePlatformManager.cs:41-49 | Distinct cells get distinct tiles. |
| PartFilter.SetOtherTogglesOff | Assets/Scripts/Builder/PartFilterUI.cs:50-56 | Only the chosen category's toggle stays on. |
| PartFilter.FilterPartList | Assets/Scripts/Builder/PartFilterUI.cs:58-66 | An item is shown exactly when all categories are chosen or it is of the chosen one. |
| PartFilter.OnToggleChanged | Assets/Scripts/Builder/PartFilterUI.cs:27-48 | Ignored while updating. Switching on chooses the category. Switching off the chosen one goes back to All. |
| PartFilter.ClickKeepsInv | Assets/Scripts/Builder/PartFilterUI.cs:27-56 | Exactly the chosen category's toggle stays on. |
| PartFilter.ClickTwiceShowsAll | Assets/Scripts/Builder/PartFilterUI.cs:27-66 | One click shows exactly that category. A second click shows everything with every toggle off. |
| Tutorial.NewStep | Assets/_Scripts/Tutorial/TutorialStep.cs:10-27 | A fresh step blocks other clicks, disables player input, and completes on a click on its target. |
| Tutorial.Clamp | Assets/_Scripts/Tutorial/TutorialManager.cs:76 | `Mathf.Clamp` on integers. |
| Tutorial.Allowed | Assets/_Scripts/Tutorial/TutorialManager.cs:357-376 | The actions left on are the listed names that exist. |
| Tutorial.Gate | Assets/_Scripts/Tutorial/TutorialManager.cs:357-376 | Without a gate every action stays on. With one, only the allowed actions stay on. |
| Tutorial.AllowedAsWritten | Assets/_Scripts/Tutorial/TutorialManager.cs:364-372 | The loop finishes exactly when every name exists, and then it enables the same actions as `Allowed`. |
| Tutorial.Frame | Assets/_Scripts/Tutorial/TutorialManager.cs:114-145 | A frame goes only on a target that resolves. |
| Tutorial.End | Assets/_Scripts/Tutorial/TutorialManager.cs:403-416 | Not running, progress saved as the step count, frame and blocker off, every action enabled. The newer manager hides its card. The older one (Assets/Tutorial/TutorialManager.cs:237-247) leaves the card as it was. |
| Tutorial.ShowStep | Assets/_Scripts/Tutorial/TutorialManager.cs:82-112 | A stopped tutorial or an index out of range ends the tutorial. Otherwise the step is shown and awaited, with its progress saved, and the card's visibility is kept. |
| Tutorial.ShowStepAsWritten | Assets/_Scripts/Tutorial/TutorialManager.cs:82-112 | Ends as `ShowStep` does when stopped or out of range. Otherwise it sets the step's text. When a gated step allows an unknown name, the throw from line 368 leaves the saved progress, the awaited step and the rest of the card as they were, with only actions of the player input enabled. With every name known, or no player input, it is `ShowStep`. |
| Tutorial.Show | Assets/_Scripts/Tutorial/TutorialManager.cs:82-112 | Runs the variant's `ShowStep`. It runs on exactly for an index inside the steps, and equals the corrected `ShowStep` when every allowed name is known. |
| Tutorial.StartTutorial | Assets/_Scripts/Tutorial/TutorialManager.cs:73-80 | The start index is clamped into the steps and that step shows. The newer manager puts its card up. The older one (Assets/Tutorial/TutorialManager.cs:55-60) leaves the card as it was. |
| Tutorial.StartAsWritten | Assets/_Scripts/Tutorial/TutorialManager.cs:57-63 | Saved progress inside the steps resumes there. Progress at or past the end reopens the last step, and negative progress opens the first. With no steps the tutorial does not run. |
| Tutorial.Start | Assets/_Scripts/Tutorial/TutorialManager.cs:57-63 | A finished tutorial stays ended, and saved progress inside the steps resumes there. |
| Tutorial.Next | Assets/_Scripts/Tutorial/TutorialManager.cs:385-390 | Moves one step on, and ends past the last step. |
| Tutorial.Back | Assets/_Scripts/Tutorial/TutorialManager.cs:392-396 | Moves one step back, never before the first. |
| Tutorial.Complete | Assets/_Scripts/Tutorial/TutorialManager.cs:222-256 | The awaited step moves on only when the frame finishes it. As written, a throw while showing the next step ends the coroutine, so nothing is awaited. |
| Tutorial.NotifyUIButtonClicked | Assets/_Scripts/Tutorial/TutorialManager.cs:418-430 | Goes on only when running, on a click-target step, for that step's button. |
| Tutorial.StartEstablishesInv | Assets/_Scripts/Tutorial/TutorialManager.cs:57-80 | Start sets up the invariant from any saved progress: corrected, or as written when every allowed name is known. |
| Tutorial.HandleKeepsInv | Assets/_Scripts/Tutorial/TutorialManager.cs:385-430 | Every event keeps the invariant: corrected, or as written when every allowed name is known. |
| Tutorial.NextThenBack | Assets/_Scripts/Tutorial/TutorialManager.cs:385-396 | Next then Back returns to the same state. |
| Tutorial.BackThenNext | Assets/_Scripts/Tutorial/TutorialManager.cs:385-396 | Back then Next returns to the same state. |
| Tutorial.ResumeRestoresStep | Assets/_Scripts/Tutorial/TutorialManager.cs:57-63 | Starting again resumes exactly where the tutorial was. |
| Tutorial.ManualNextOnlyByButton | Assets/_Scripts/Tutorial/TutorialManager.cs:222-256 | A ManualNext step is left only through the buttons. |
| Tutorial.OlderBlockerFollowsStep | Assets/Tutorial/TutorialManager.cs:74 | In the older manager the blocker always follows the step's flag. |
| Tutorial.OlderNavigation | Assets/Tutorial/TutorialManager.cs:219-247 | In the older manager, Next and Back move by one step, bounded. Ending saves the step count and turns frame and blocker off, but leaves the card as it was. |
| Tutorial.ResumeAfterEndReopens | Assets/_Scripts/Tutorial/TutorialManager.cs:57-80 | As written, a finished tutorial reopens on its last step, with the newer manager's card up again. The corrected `Start` keeps it ended. |
| Tutorial.UnknownActionBreaksInv | Assets/_Scripts/Tutorial/TutorialManager.cs:357-376 | As written, Next onto a step allowing an unknown action name saves no progress and still awaits the previous step, so the invariant is lost. The corrected variant shows the step in full. |
| Tutorial.KnownActionsAgree | Assets/_Scripts/Tutorial/TutorialManager.cs:357-376 | When every allowed name exists, `ShowStep` as written and corrected agree. |

## Left out

- JSON serialisation, encryption and file I/O of both save files. A save file is its parsed record, and text that parses to null is a separate case.
- Null records inside a parsed save. `SavePartRecursive` (RobotSaveManager.cs:82-94) is never called and is not modelled.
- Unity defers `Destroy` to the end of the frame; the model destroys immediately. The results differ only when the donor is a direct child of the target in `MergeGroup`.
- Rigid bodies, joints, the camera and physics. The motor PID control loop and animation coroutines are reduced to their start and end states, and timing is not modelled.
- Raycasts and input polling are modelled as per-frame inputs.
- Quaternion alignment (`SnapPartToHole`, `GetAlignment`) is left as a `Motion` parameter, so poses are abstract.
- Scene positions are translations only. Rotation is not used by `World`, `Reanchor` or centring.
- Real arithmetic replaces single-precision floats.
- `InfinitePlatformManager` with `tileSize == 0` is excluded (`Update` requires a non-zero size). The source would divide by zero.
- Renderer bounds used by the lift are a parameter.
- Tutorial:
  - The target caches are a `resolves` predicate, and `ResolveWorldTarget` reading the UI cache is not modelled.
  - The highlight's screen-rectangle tracking is not modelled.
  - The extra delay after a `ClickTarget` step is collapsed into the completion event.
  - Calling the public `StartTutorial` again after deactivation is not modelled.
  - The older step record holds object references, which are read as names.
  - The older manager has no card object. Switching off its own object (Assets/Tutorial/TutorialManager.cs:246) is not read as hiding the card.
- Merge.StandardMerge: the `WouldCycle` failure has no counterpart in the source, which re-parents the donor's children without a check (lines 935-942). What the engine does when the target lies inside the donor is not modelled.
- Merge.HubMerge: the `WouldCycle` failure has no counterpart in the source, which re-parents the group's children onto the hub without a check (lines 958-963). What the engine does when the hub lies inside the group is not modelled.
- BlockSave.LoadInputs: a field takes the saved text as it is. The per-field parsing (`int.Parse` of a dropdown index, `SetDirectionFromString`) and a missing inputs map in the file are not modelled.
- PartFilter: null items without a `PartItem` component, and the listener wiring in `Start`.
- `MotorLabel.cs` calls a `ReleaseLetter` that does not exist, so that call is not modelled.
- Drivetrain.Finish: states only the missing-motor case in its contract. Its effect with both motors present is stated by `Drivetrain.TurnRestoresSpeed` and `Drivetrain.StartOpposes`.
- HoleFsm.Step: states only that the invariant is kept. The behaviour of each state is stated by the lemmas about it.
- HoleFsm.Run: a `Fault` ends the modelled run, but in the engine the exception aborts only that frame's `Update`. After a missing part root in `PreviewSnap` (ControlManager.cs:574-587), the engine keeps both chosen connectors and the hole (lines 488-506) and stays in the second-selection state, so later frames go on. After `MergeGroup(moverRoot, null)` throws in the commit callback, before `ClearAllHoleState`, it stays in the preview state with the panel hidden and the handles cleared (lines 532-534, 589-605). These states break the builder's invariant, and frames after a fault are not modelled.

## Findings

| source | as written | input that shows it | evidently intended | confidence | as-written member | corrected member |
|---|---|---|---|---|---|---|
| Assets/_Scripts/Builder/ControlManager.cs:930-942 | `MergeGroup` has no guard for two parts of one group. The donor is then the target, and destroying the "donor" destroys the whole group. | Two connectors three or more levels below their part roots. The state machine's group test compares the connectors' group roots, while the merge uses the part roots', which are one group. | Merging a group with itself changes nothing, as the older controller's guard does (Assets/Scripts/Builder/ControlManager.cs:591-595). | low, not executed | Merge.MergeGroupAsWritten, Merge.SelfMergeDestroysGroup | Merge.MergeGroup |
| Assets/_Scripts/Builder/ControlManager.cs:919-927 | The hub test passes a group root to `HasControlHub`, which climbs to the group root again. | Two groups under a common "Robot" root (`Merge.TwoGroups`). Both climbs reach "Robot", whose children are the groups. The hub group is missed, and the other group becomes the target. | The group holding the control hub receives the parts. | medium, not executed | Merge.ChooseTargetAsWritten, Merge.HubTestClimbsTooFar | Merge.ChooseTarget |
| Assets/_Scripts/Builder/ControlManager.cs:493-503 | For an axle, both connectors are redirected to their "AxlePos" children, then the hub swap sets the first connector to the raw hit. | An axle joint whose first side holds the control hub, with a second connector that has an "AxlePos" child. | The swap exchanges the redirected connectors. | medium, not executed | HoleFsm.HubSwapAsWritten, HoleFsm.HubSwapSkipsRedirect | HoleFsm.HubSwap |
| Assets/_Scripts/Tutorial/TutorialManager.cs:57-80 | `EndTutorial` saves the step count (line 406), and `Start` clamps it to the last step. | Finish or skip the tutorial, then load the scene again. | A finished tutorial stays finished. | medium, not executed | Tutorial.StartAsWritten, Tutorial.ResumeAfterEndReopens | Tutorial.Start |
| Assets/_Scripts/Tutorial/TutorialManager.cs:368 | `FindAction(name, true)` throws on an unknown name, so the null check after it is dead. `ShowStep` stops after setting the text, before the buttons, the save and the completion wait. The older manager has the same call (Assets/Tutorial/TutorialManager.cs:202). | A step whose `allowActions` lists a name the input actions lack (`Tutorial.UnknownActionBreaksInv`). | Unknown names are skipped. | medium, not executed | Tutorial.ShowStepAsWritten, Tutorial.UnknownActionBreaksInv | Tutorial.ShowStep |
