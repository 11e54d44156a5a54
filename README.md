# A verified model of the ui toolkit's core

This project models the core of a small Go user-interface toolkit and proves properties of
the model. The core covered is:

- the retained block tree (`Block.go`): the ordered child list with single-parent ownership,
  bounds changes with their repaint requests and layout flags, upward repaint propagation
  clipped to each block, top-down layout validation, depth-first hit testing, coordinate
  translation along the parent chain, and downward clipped painting;
- the Linux platform layer (`App_linux.go`): the button and modifier decoders, the quit state
  machine held in the package globals, and the X11 event loop with its drag state;
- the KeyDown and FocusLost events (`event/`);
- the root view of a window and its tooltip sequencing (`window/`);
- the two menu items (`MenuItem.go`, `menu/MenuItem.go`), the drawn menu item
  (`widget/menu/MenuItem.go`), the image label (`ImageLabel.go`) and the Delete menu item
  (`widget/Deletable.go`);
- the integer helpers of the colour package (`color/hsb.go`).

Files:

| file | module | what it holds |
|---|---|---|
| `wrappers.dfy` | `Wrappers` | `Option`, duplicate-free sequences, removal by identity |
| `geometry.dfy` | `Geometry` | points, sizes, rectangles, insets and the rectangle operations the tree uses |
| `block.dfy` | `BlockTree` | the block tree as a map from block ids to nodes; its invariants; the specification functions of repaint, layout, paint, hit testing, the window lookup and the coordinate offsets; the lemmas about them |
| `layout.dfy` | `BlockLayout` | layout validation as functions from a state to the state it leaves and the effects it logs, with the layout strategy's placement of the children as a parameter; the lemmas about how often each layout runs |
| `forest.dfy` | `BlockForest` | the class `Forest`, whose methods are the operations of `Block.go`, each proved against `BlockTree` |
| `x11_platform.dfy` | `X11Platform` | the decoders; the quit transitions and the loop as functions on a `Platform` record; the class `App` that updates the globals in place |
| `events.dfy` | `Events` | event types, handler registries, and the text helpers the events' `String` methods use |
| `key_down.dfy`, `focus_lost.dfy` | `KeyDownEvent`, `FocusLostEvent` | the two event classes |
| `root_view.dfy`, `tooltips.dfy` | `RootViews`, `Tooltips` | the root view and the tooltip sequencer |
| `menu_item.dfy`, `app_menu_item.dfy`, `menu_widget.dfy` | `MenuItems`, `AppMenuItems`, `MenuWidget` | the three menu items |
| `image_label.dfy`, `deletable.dfy`, `hsb.dfy` | `ImageLabels`, `Deletables`, `Hsb` | the image label, the Delete item and the colour helpers |

The block tree is a heap of blocks in the source. Here a `Forest` holds a map from block ids
to node records. Each record gives the block's parent, its ordered children, its bounds, its
window, whether it has a layout, and its `NeedLayout`, focused and disabled flags. `Valid()`
asserts three things:

- a child appears in `p.children` exactly when its parent is `p`;
- no child list has duplicates;
- a ghost ranking gives every parent a lower rank than its children, so the parent chain is
  finite and acyclic.

The things the tree asks of the outside world are appended to the forest's log, in order:

- `LayoutRan(b)` is a call of the block's `Layout`;
- `WindowRepaint(w, r)` is a repaint request reaching window `w`;
- `Painted(b, r)` is the block painting itself in the dirty rect `r`.

Every method is proved against a ghost function of the old state (`Detach`, `Attach`,
`Repainted`, `BoundsSet`, `Validated`, `PaintEffects`, `HitTest`, `Offset`, `WindowOf`). The
lemmas state what the source promises about those functions.

A block's layout strategy is code the tree calls back. It is modelled as a `Placement`: a
function of the state and the block that gives the new bounds of the block's children, in
order. The strategy applies them with `SetBounds`. So a child it moves or resizes is
repainted, and a child it resizes has NeedLayout set; the walk reaches that child later and
runs its layout too.

The platform globals (`running`, `awaitingQuit`, `quitting`, the window registry, whose
length is taken as `xWindowCount`, the drag state `mouseDownButton`/`lastMouseDownWindow`, and the
windows that ignore repaints) form a `Platform` record. Each quit function and each branch
of the event loop is a transition function on that record. Each returns the new state and
the actions the loop hands to the rest of the toolkit. `syscall.Exit` never returns, so it
is modelled as the `exited` flag, after which the loop takes no more input. The delegate's
answers (`appShouldQuit`, `appShouldQuitAfterLastWindowClosed`, whether a window may close)
are inputs. The class `App` holds the same globals as fields, and each of its methods is
proved equal to the matching transition.

Coordinates are exact reals in the tree and the widgets (the Go code only adds, subtracts,
compares and halves them). In the X11 layer they are the server's integers. The X11 modifier
state is a `bv32`.

## Model

| member | source | states |
|---|---|---|
| BlockTree.Chain | Block.go:316-324 | the parent chain of a block starts at the block and has only blocks of the tree, each of no higher rank |
| BlockTree.WindowOf | Block.go:338-346 | the window is the first one set along the parent chain; none exactly when no block of the chain has one |
| BlockTree.Repainted | Block.go:276-287 | a repaint produces at most one window request, none when the rect misses the block's local bounds, and never an empty area |
| BlockTree.RepaintClipped | Block.go:276-287 | every window request lies inside the requested rect clipped to the block, offset by the origins up the chain |
| BlockTree.RepaintTarget | Block.go:281-286 | a request reaches the window of the topmost block of the chain; a parentless block without a window drops it |
| BlockTree.Detach | Block.go:114-125 | detaching keeps the set of blocks and leaves the block without a parent |
| BlockTree.DetachKeepsTree | Block.go:114-125 | removal keeps the tree invariants, clears only the child's parent, deletes exactly that child from the old parent's list in order, and sets the old parent's NeedLayout |
| BlockTree.DetachBySlice | Block.go:116-122 | the copy-shift-truncate of the source equals removal by identity |
| BlockTree.Attach | Block.go:106-111 | attaching keeps the set of blocks |
| BlockTree.AttachByUpdate | Block.go:108-110 | the source's three field writes equal `Attach` |
| BlockTree.AttachKeepsTree | Block.go:106-111 | appending a parentless block that is not an ancestor keeps the tree invariants under a new ranking |
| BlockTree.AddChildOutcome | Block.go:106-111 | after AddChild the child's parent is the block, the child is the last child and occurs once, it has left its former parent's list, and the block needs layout |
| BlockTree.DetachKeepsChain | Block.go:106-107 | removing the child from its old parent does not change the new parent's chain |
| BlockTree.BelowChildren | Block.go:298-300 | the blocks the children's validations reach are the subtree without its root |
| BlockLayout.Paired | Block.go:293 | a placement reaches as many children as there are both children and rects |
| BlockLayout.BoundsSet | Block.go:182-196 | SetBounds keeps every other block and the tree's links, gives the block the new bounds, raises NeedLayout exactly when the block had it or the size changed, and requests only repaints |
| BlockLayout.ArrangedFrame | Block.go:182-196 | the layout's SetBounds calls leave every block they do not place unchanged and never clear a NeedLayout flag |
| BlockLayout.ArrangedChild | Block.go:182-196 | each placed child ends with its rect as bounds and NeedLayout set exactly when it was set or the child was resized |
| BlockLayout.LayoutRun | Block.go:292-295 | a layout run logs its own `LayoutRan` first, followed only by repaints, and changes only bounds and flags |
| BlockLayout.LayoutRunOnce | Block.go:292-295 | a layout run logs exactly one run, its own |
| BlockLayout.OwnRanOnce | Block.go:291-297 | the block's own step logs one run exactly when NeedLayout and a layout are both set, and none for any other block |
| BlockLayout.OwnFrame | Block.go:291-297 | the own step clears the block's flag, changes no block but it and its children, never clears a child's flag, and changes a child only when the layout ran |
| BlockLayout.ValidatedFrame | Block.go:290-301 | validation changes no block outside the subtree |
| BlockLayout.ValidatedClears | Block.go:290-301 | after validation no block of the subtree needs layout |
| BlockLayout.LayoutRanExactly | Block.go:290-301 | across the whole walk, a block's layout runs once when it is in the subtree, has a layout and has NeedLayout set at the moment the walk reaches it, and zero times otherwise |
| BlockLayout.ChildLayoutRanExactly | Block.go:298-300 | the same count for the children validated in order |
| BlockLayout.FlagKept | Block.go:290-301 | a block of the subtree with NeedLayout set beforehand still has it when the walk reaches it |
| BlockLayout.ChildFlagAt | Block.go:298-300 | the flag seen at a block below a child is the one that child's own walk sees, after the earlier children's walks |
| BlockLayout.FlagRaised | Block.go:182-196 | a flag set at the visit was set beforehand or was raised by the layout of the block's parent, which ran in the same walk |
| BlockLayout.ResizedChildLaidOut | Block.go:290-301 | a child that its parent's layout resizes is laid out exactly once in the same walk, even when its flag was clear before |
| BlockLayout.LayoutIdle | Block.go:290-301 | a subtree with no NeedLayout runs no layout, moves nothing and repaints nothing |
| BlockLayout.ChildLayoutIdle | Block.go:298-300 | the same for the children's loop |
| BlockLayout.ValidateTwiceRunsOnce | Block.go:290-301 | after one validation of a subtree, a second one, with any placement, changes nothing and logs nothing |
| BlockTree.PaintClipped | Block.go:212-224 | every paint call is made by a block of the subtree, with a non-empty rect inside that block's local bounds |
| BlockTree.ChildPaintClipped | Block.go:216-222 | the same, for the children painted in order |
| BlockTree.ChildPaintStep | Block.go:216-222 | each child is painted, after the ones before it, with the dirty rect clipped to it and made child-local, or skipped when that is empty |
| BlockTree.FirstHit | Block.go:305-313 | the index of the first child, in order, whose bounds contain the point; no earlier child contains it |
| BlockTree.FirstHitAt | Block.go:305-313 | any index with those two properties is the first hit |
| BlockTree.HitTest | Block.go:305-313 | the block found lies in the receiver's subtree |
| BlockTree.WindowRoundTrip | Block.go:316-335 | FromWindow undoes ToWindow and ToWindow undoes FromWindow |
| BlockTree.ComputeSizes | Block.go:202-210 | the layout's sizes when there is a layout, else the Sizes function's, else the defaults |
| BlockTree.Focused | Block.go:383-385 | a block is focused exactly when its focused flag is set and it is not disabled |
| BlockForest.Forest.constructor | Block.go:58-68 | the forest starts empty with an empty log |
| BlockForest.Forest.NewBlock | Block.go:58-68 | a new block with a fresh id, zero bounds, no parent, no children, no window, no layout and NeedLayout clear |
| BlockForest.Forest.SetWindow | Block.go:338-346 | sets one block's window and keeps the tree valid |
| BlockForest.Forest.SetHasLayout | Block.go:202-210 | sets one block's layout and keeps the tree valid |
| BlockForest.Forest.IndexOfChild | Block.go:95-103 | the first index of the child, or -1 exactly when it is absent |
| BlockForest.Forest.RemoveFromParent | Block.go:114-125 | the new tree is `Detach` of the old one, and the invariants hold |
| BlockForest.Forest.AddChild | Block.go:106-111 | the new tree is the child detached from its old parent and appended to the block, and the invariants hold |
| BlockForest.Forest.AppendChild | Block.go:108-110 | appends a parentless child and keeps the invariants |
| BlockForest.Forest.Repaint | Block.go:271-273 | logs the repaint of the block's local bounds |
| BlockForest.Forest.RepaintBounds | Block.go:276-287 | logs exactly `Repainted` of the rect |
| BlockForest.Forest.SetLocation | Block.go:132-139 | equal location: no change and no repaint; otherwise the origin moves, the old and then the new footprint are repainted, and NeedLayout is unchanged |
| BlockForest.Forest.SetSize | Block.go:146-154 | equal size: no change and no repaint; otherwise the size changes, both footprints are repainted and NeedLayout is set |
| BlockForest.Forest.SetBounds | Block.go:182-196 | the new state and the log are exactly those of `BoundsSet`: equal bounds change nothing; otherwise the old and then the new footprint are repainted and NeedLayout is raised only when width or height changed |
| BlockForest.Forest.Arrange | Block.go:293 | the SetBounds calls of a layout strategy on the block's children, in order: the new state and log are `Arranged` |
| BlockForest.Forest.RunLayout | Block.go:292-295 | logs the run, applies the placement to the children, then repaints the block: the new state and log are `LayoutRun` |
| BlockForest.Forest.ValidateLayout | Block.go:290-301 | the new state and the log are exactly `Validated`, about which BlockLayout proves how often each layout runs and that the subtree ends with every flag clear |
| BlockForest.Forest.ValidateOwn | Block.go:291-297 | the new state and log are `OwnValidated`: when NeedLayout is set, the layout runs if there is one, and the flag is cleared |
| BlockForest.Forest.ValidateChildren | Block.go:298-300 | validates the children's subtrees in order, each in the state the earlier ones left: the new state and log are `ChildrenValidated` |
| BlockForest.Forest.Paint | Block.go:212-224 | the paint calls are exactly `PaintEffects` |
| BlockForest.Forest.PaintChildren | Block.go:216-222 | the children's paint calls, in order |
| BlockForest.Forest.PaintChild | Block.go:248-255 | a child paints with the dirty rect moved into its coordinates |
| BlockForest.Forest.BlockAt | Block.go:305-313 | returns `HitTest`, a block of the subtree |
| BlockForest.Forest.ToWindow | Block.go:316-324 | adds the origins of the block and all its ancestors |
| BlockForest.Forest.FromWindow | Block.go:327-335 | subtracts the same origins |
| BlockForest.Forest.Window | Block.go:338-346 | returns `WindowOf` |
| X11Platform.IsScrollWheelButton | App_linux.go:222-224 | true exactly for buttons 4 to 7 |
| X11Platform.GetButton | App_linux.go:226-234 | 3 maps to 1, 2 maps to 2, every other button to 0 |
| X11Platform.WheelDelta | App_linux.go:59-71 | 4 is (0,-1), 5 is (0,1), 6 is (-1,0), 7 is (1,0) |
| X11Platform.ConvertKeyMask | App_linux.go:236-253 | each modifier is present exactly when its X bit is set |
| X11Platform.ConvertKeyMaskIgnoresOtherBits | App_linux.go:236-253 | bits other than Lock, Shift, Control, Mod1 and Mod4 do not change the result |
| X11Platform.CloseAll | App_linux.go:206-209 | one close request per window, in registry order |
| X11Platform.AttemptQuitCancelled | App_linux.go:184-187 | QuitCancel changes no state and asks for nothing |
| X11Platform.AttemptQuitDeferred | App_linux.go:188-189 | QuitLater only sets awaitingQuit |
| X11Platform.DeferredQuitAnswered | App_linux.go:184-201 | a deferred quit answered false only clears the flag; answered true it quits as QuitNow would |
| X11Platform.MayQuitNowIdle | App_linux.go:194-201 | without awaitingQuit, platformAppMayQuitNow does nothing |
| X11Platform.InitiateQuitOutcome | App_linux.go:203-220 | initiateQuit announces the quit and sets quitting; with windows open it closes them all, and with none it stops running and exits |
| X11Platform.QuitExitsLast | App_linux.go:184-220 | nothing follows the exit in a quit attempt, and an exit stops the loop |
| X11Platform.DestroyExitsLast | App_linux.go:118-127 | the same for the DestroyNotify branch |
| X11Platform.StepExitsLast | App_linux.go:47-156 | every turn of the loop keeps that invariant |
| X11Platform.LoopExitsLast | App_linux.go:47-156 | a whole run exits at most once, as its last action |
| X11Platform.ExitedIsTerminal | App_linux.go:215-220 | after the exit the loop takes no more input |
| X11Platform.MotionRouting | App_linux.go:85-95 | during a drag, motion goes as a drag to the window of the press; otherwise as a move to its own window; the state is unchanged |
| X11Platform.ButtonDragState | App_linux.go:57-84 | a wheel press or release leaves the drag state alone; another press starts a drag in its window, and a release ends it |
| X11Platform.LastWindowFinishesQuit | App_linux.go:118-127 | the DestroyNotify of the last window while quitting finishes the quit |
| X11Platform.ConfigureOutcome | App_linux.go:128-140 | a tracked window is resized and accepts repaints again; an untracked one is ignored |
| X11Platform.App.constructor | App_linux.go:25-32 | the globals start not running, not quitting, with no drag |
| X11Platform.App.FinishQuit | App_linux.go:215-220 | equals the finishQuit transition |
| X11Platform.App.InitiateQuit | App_linux.go:203-213 | equals the initiateQuit transition |
| X11Platform.App.CloseWindows | App_linux.go:206-209 | logs one close request per window |
| X11Platform.App.AttemptQuit | App_linux.go:184-192 | equals the platformAttemptQuit transition |
| X11Platform.App.MayQuitNow | App_linux.go:194-201 | equals the platformAppMayQuitNow transition |
| X11Platform.App.Destroyed | App_linux.go:118-127 | equals the DestroyNotify transition |
| X11Platform.App.ButtonPressed | App_linux.go:57-77 | equals the ButtonPress transition |
| X11Platform.App.ButtonReleased | App_linux.go:78-84 | equals the ButtonRelease transition |
| X11Platform.App.Moved | App_linux.go:85-95 | logs the MotionNotify action without changing the state |
| X11Platform.App.Step | App_linux.go:50-155 | one turn of the loop equals the `AfterEvent` transition |
| X11Platform.App.Start | App_linux.go:35-44 | equals the startup transition |
| X11Platform.App.Loop | App_linux.go:47-156 | the loop equals `AfterLoop` over the inputs |
| X11Platform.App.Run | App_linux.go:34-157 | platformStartUserInterface is the startup followed by the loop |
| Events.Handlers.constructor | widget/menu/MenuItem.go:46 | a registry starts empty |
| Events.Handlers.Add | widget/menu/MenuItem.go:46-57 | a registration is appended |
| Events.Digits | event/key_down.go:91 | the decimal digits of a natural number, with no leading zero |
| Events.Decimal | event/key_down.go:91 | the decimal text of an integer has no comma and starts with '-' exactly for negatives |
| Events.DigitsRoundTrip | event/key_down.go:91 | reading the digits back gives the number |
| Events.DecimalRoundTrip | event/key_down.go:91 | parsing the decimal text gives the integer back |
| Events.RuneText | event/key_down.go:93 | one character: the rune when valid, else the replacement character |
| KeyDownEvent.KeyDown.constructor | event/key_down.go:24-26 | stores code, rune, modifiers, repeat and target; not finished and not discarded |
| KeyDownEvent.KeyDown.Type | event/key_down.go:29-31 | always the KeyDown type |
| KeyDownEvent.KeyDown.Cascade | event/key_down.go:39-41 | always true |
| KeyDownEvent.KeyDown.Finish | event/key_down.go:49-51 | sets finished, keeps discarded, keeps discarded implies finished |
| KeyDownEvent.KeyDown.Discard | event/key_down.go:79-82 | sets discarded and finished |
| KeyDownEvent.KeyDown.String | event/key_down.go:85-109 | the buffer's text equals `KeyDownText` of the event's fields |
| KeyDownEvent.KeyDownFramed | event/key_down.go:85-109 | the text begins with "KeyDown[" and ends with "]" |
| KeyDownEvent.KeyDownShowsDiscarded | event/key_down.go:87-90 | the text begins with "KeyDown[Discarded, " exactly when the event is discarded |
| KeyDownEvent.KeyDownShowsFlags | event/key_down.go:95-107 | the text ends with ", Finished]" exactly when finished, and shows ", Auto-Repeat" before the end exactly when repeating |
| KeyDownEvent.TextPrefix | event/key_down.go:87-91 | the opening of the text decides its short prefixes |
| KeyDownEvent.HeadShape | event/key_down.go:95-100 | the last field before the flags is the modifiers when there are any, else the target |
| KeyDownEvent.TailShows | event/key_down.go:101-107 | the flag suffixes show exactly the flags that are set |
| FocusLostEvent.FocusLost.constructor | event/focus_lost.go:16-18 | stores the target; not finished |
| FocusLostEvent.FocusLost.Type | event/focus_lost.go:21-23 | always the FocusLost type |
| FocusLostEvent.FocusLost.Cascade | event/focus_lost.go:31-33 | always false |
| FocusLostEvent.FocusLost.Finish | event/focus_lost.go:41-43 | sets finished |
| FocusLostEvent.FocusLost.String | event/focus_lost.go:46-54 | the buffer's text equals `FocusLostText` |
| FocusLostEvent.FocusLostShows | event/focus_lost.go:46-54 | the text begins with "FocusLost[Target: " and ends with "]", and ends with ", Finished]" exactly when finished |
| Hsb.Clamp0To255 | color/hsb.go:145-154 | the result is in [0,255], the identity inside it, 0 below and 255 above |
| Hsb.ClampIdempotent | color/hsb.go:145-154 | clamping twice is clamping once |
| Hsb.Min3 | color/hsb.go:160-171 | at most each argument and equal to one of them |
| Hsb.Max3 | color/hsb.go:173-184 | at least each argument and equal to one of them |
| Hsb.MinAtMostMax | color/hsb.go:160-184 | the minimum is at most the maximum |
| MenuItems.Item.constructor | menu/MenuItem.go:17-21 | an item with its platform item, title and modifiers, and no registry yet |
| MenuItems.Item.PlatformPtr | menu/MenuItem.go:24-26 | the stored platform item |
| MenuItems.Item.Title | menu/MenuItem.go:29-31 | the stored title |
| MenuItems.Item.SetKeyModifiers | menu/MenuItem.go:35-37 | the item carries the given mask |
| MenuItems.Item.SubMenu | menu/MenuItem.go:40-45 | none exactly when the platform submenu is not registered, else the registered menu |
| MenuItems.Item.EventHandlers | menu/MenuItem.go:48-53 | the first call creates an empty registry and stores it; every later call returns the same one |
| MenuItems.Item.ParentTarget | menu/MenuItem.go:56-58 | the package-level parent target |
| AppMenuItems.MenuItem.constructor | MenuItem.go:17-21 | an item with its title and modifiers and no registry yet |
| AppMenuItems.MenuItem.Title | MenuItem.go:24-26 | the stored title |
| AppMenuItems.MenuItem.SetKeyModifiers | MenuItem.go:30-32 | the item carries the given mask |
| AppMenuItems.MenuItem.SubMenu | MenuItem.go:35-40 | none exactly when the platform submenu is not registered, else the registered menu |
| AppMenuItems.MenuItem.EventHandlers | MenuItem.go:43-48 | the first call creates an empty registry and stores it; every later call returns the same one |
| AppMenuItems.MenuItem.ParentTarget | MenuItem.go:51-53 | always the application |
| Deletables.SelectionCalls | widget/Deletable.go:31-39 | Delete is called once exactly when there is a key window whose focus is Deletable |
| Deletables.DeleteValid | widget/Deletable.go:40-52 | the event stays valid only when the focus is Deletable and can delete now |
| Deletables.ValidateDelete | widget/Deletable.go:40-52 | the Validate handler marks the event invalid unless deleting is possible, and does not finish it |
| Deletables.Validate.MarkInvalid | widget/Deletable.go:49-51 | the event is invalid |
| Deletables.AddDeleteItem | widget/Deletable.go:27-53 | the returned item is titled Delete, has modifiers 0, and registers Selection then Validate |
| ImageLabels.NewImageLabelWithImageSize | ImageLabel.go:29-38 | the natural sizer exactly when a requested dimension is not positive, else a fixed sizer with that size; one paint handler |
| ImageLabels.NewImageLabel | ImageLabel.go:23-25 | a label of the image with the natural sizer |
| ImageLabels.LabelSizes | ImageLabel.go:41-47 | min, pref and max are the image size plus the border insets |
| ImageLabels.FixedSizes | ImageLabel.go:69-75 | min, pref and max are the requested size plus the border insets |
| ImageLabels.SizerSizes | ImageLabel.go:32-36 | the installed sizer reports equal min, pref and max |
| ImageLabels.DrawnRect | ImageLabel.go:49-61 | where the image is smaller it has the image's extent and is centred; elsewhere the bounds' extent; it lies inside the inset bounds |
| MenuWidget.ItemSizes | widget/menu/MenuItem.go:62-90 | min, pref and max are equal and, without a border, respect a hint of at least 1 |
| MenuWidget.MenuItem.constructor | widget/menu/MenuItem.go:38-59 | the standard handlers in order, plus Selection exactly when a handler is given; enabled and not highlighted |
| MenuWidget.MenuItem.CurrentBackground | widget/menu/MenuItem.go:138-149 | disabled first, then highlighted or menu open, then focused, else plain; each case exactly |
| MenuWidget.MenuItem.TextColorOf | widget/menu/MenuItem.go:151-159 | the disabled colour exactly when disabled, else the one the background's luminance calls for |
| MenuWidget.MenuItem.MouseDown | widget/menu/MenuItem.go:161-164 | highlights and repaints |
| MenuWidget.MenuItem.MouseOver | widget/menu/MenuItem.go:166-175 | while enabled, highlighted exactly when the point is in the inset bounds, repainting only on a change |
| MenuWidget.MenuItem.MouseUp | widget/menu/MenuItem.go:181-190 | clears the highlight and repaints; inside the bounds it then dispatches Closing and Selection |
| MenuWidget.MenuItem.KeyDown | widget/menu/MenuItem.go:204-209 | a control-action key finishes the event and dispatches Selection; other keys change nothing |
| MenuWidget.MenuItem.SubMenu | widget/menu/MenuItem.go:212-213 | the item's menu |
| RootViews.BarWidget | window/root_view.go:40-47 | a bar counts as a child only when it is a widget |
| RootViews.InsertAt | window/root_view.go:47 | inserts at the index, or at the end when the index is past it, keeping every element |
| RootViews.AdjustForBar | window/root_view.go:93-98 | the height grows by the bar's and the width is the larger of the two |
| RootViews.RootSizes | window/root_view.go:80-91 | the content's sizes, each adjusted for the bar when there is a widget bar |
| RootViews.RootSizesOrdered | window/root_view.go:80-98 | ordered content sizes stay ordered |
| RootViews.BarBounds | window/root_view.go:104-106 | the bar spans the width at the top with its preferred height |
| RootViews.ContentBounds | window/root_view.go:101-112 | the content keeps the bounds' width and bottom edge and starts below the bar; without a bar it fills the bounds |
| RootViews.BarAboveContent | window/root_view.go:101-112 | the content starts where the bar ends |
| RootViews.RootView.constructor | window/root_view.go:22-31 | the content is the only child, the root layout is set, no bar and no tooltip |
| RootViews.RootView.RemoveChild | window/root_view.go:42 | the child is removed, the rest kept in order |
| RootViews.RootView.AddChildAtIndex | window/root_view.go:47 | the child is moved to the index |
| RootViews.RootView.AddChild | window/root_view.go:64 | the child is moved to the end |
| RootViews.RootView.SetMenuBar | window/root_view.go:39-49 | the old widget bar leaves the children, the new one becomes the first child, and the view stays valid |
| RootViews.RootView.ValidAfterBar | window/root_view.go:39-49 | the children after SetMenuBar keep the view's invariant |
| RootViews.RootView.SetTooltip | window/root_view.go:57-67 | the old tip is repainted and removed, the new one is added last and repainted, and the view stays valid |
| RootViews.RootView.ValidAfterTooltip | window/root_view.go:57-67 | the children after SetTooltip keep the view's invariant |
| RootViews.RootView.Layout | window/root_view.go:101-112 | with a widget bar, the bar and then the content get their bounds; otherwise the content gets the whole bounds |
| Tooltips.TipSize | window/tooltips.go:36-45 | the preferred size when it fits the view's width, else the height at that width and a width no larger than the view's |
| Tooltips.Placement | window/tooltips.go:28-54 | the tip lies within the view horizontally and below its top, with the size above |
| Tooltips.PlacedBelow | window/tooltips.go:28-48 | without a need to move, the tip sits one unit below the avoid rect at its left edge |
| Tooltips.PlacedAbove | window/tooltips.go:49-54 | a tip that would leave the view at the bottom is flipped to y = avoid.y − (height + 1), then clamped to 0; so it ends one unit above the avoid rect whenever that position is not negative |
| Tooltips.Place | window/tooltips.go:28-54 | the step-by-step computation equals `Placement` |
| Tooltips.Window.constructor | window/tooltips.go:25-26 | the class stands for the window fields that `show` and `close` read (the window type itself is not part of this model): the root view and last tooltip stored, sequence 0, no timers and an empty log |
| Tooltips.Sequencer.constructor | window/tooltips.go:18-22 | a request for the window, the avoid rect and the sequence number |
| Tooltips.Sequencer.Show | window/tooltips.go:24-60 | a stale request changes nothing; otherwise the tip is placed, becomes the root's tooltip, the previous tooltip is repainted and leaves the children with the others kept in order, the tip is appended last and repainted, the time is recorded and one dismissal timer of 3000 ms is started |
| Tooltips.Sequencer.Close | window/tooltips.go:62-66 | a stale request changes nothing; otherwise the root has no tooltip, the old one is repainted and removed from the children, and the other children keep their order |

## Left out

- X11, Xlib and cairo I/O (`XNextEvent`, the queue draining, surface calls, `XCloseDisplay`) are not modelled: the native queue is a sequence of abstract events.
- The KeyPress and KeyRelease branches of the loop only print, so they are modelled as doing nothing.
- `windowDidClose` is not part of this model. It is taken to remove the window from the registry, and the `WindowDidClose` action stands for its call.
- widget/Window_linux.go is not part of this model. It is a thin Xlib wrapper, and its `platformInvokeAfter` timer runs on another goroutine.
- Timers and wall-clock time are not modelled. The tooltip's timer is an entry in `timers`, `time.Now()` is a parameter of `Show`, and the dismissal delay is a plain number.
- `event.Dispatch` is not modelled: dispatched events are appended to a log.
- `ui.Sizes`, font measurement, the theme's colours, luminance and `keys.IsControlAction` are parameters or named values, because their bodies are not part of this model.
- The floating-point colour maths of color/hsb.go (`HSB`, `HSBA`, hue, saturation, brightness and their setters) is not modelled.
- Drawing is not modelled: `paintSelf` and `paintBorder` are one `Painted` entry, and `DrawImageInRect` is described by the rect it draws in.
- Handlers are known by name, not by function identity.
- The key name and modifier text in `KeyDown.String`, and the target text in both events, are parameters.
- Getters that only return a field (`Code`, `Rune`, `Target`, `Finished`, `Discarded`, `Content`, `MenuBar`, `Tooltip`) are the classes' fields.
- The geom package is not part of this model. `Intersect`, `Contains`, `Inset`, `GrowToInteger` and `ConstrainForHint` use the usual conventions written in geometry.dfy.
- Geometry is exact: IEEE rounding of Go's float64 is not modelled.
- widget.Block is not part of this model. The root view's `RemoveChild`, `AddChild` and `AddChildAtIndex` remove by identity, then insert, with an index past the end meaning the end.
- The root view's `Size()` and the view's size in `show` are parameters.
- BlockForest.Forest.AddChild: requires that the child is not an ancestor of the block, because the source would create a cycle there and `ToWindow` would never end.
- MenuWidget.MenuItem.MouseOver: stands for mouseDragged, mouseEntered, mouseMoved and mouseExited, which only call it; the handlers' conversion of the event's point to local coordinates is a parameter.
- MenuWidget.ItemSizes: states only equal sizes and the hint bound, because the measured texts are parameters.
- KeyDownEvent.KeyDownShowsFlags: is proved for target and modifier texts without commas, and for a modifier text other than "Finished" and "Auto-Repeat", because such texts would make the suffixes ambiguous.
- FocusLostEvent.FocusLostShows: the ", Finished]" direction is proved for target texts without commas, for the same reason.
- Layout strategies are modelled only by their placement: a `Placement` gives new bounds to the block's own children, so a strategy that moves other blocks, or changes anything but bounds, is outside the model.
- The layout strategies' bodies are not part of this model; the `Placement` is a parameter of `ValidateLayout`.
- `xWindowCount` is taken to be the length of the window registry. App_linux.go only reads it, and the code that keeps it is not part of this model.
- Deletables.AddDeleteItem: `Menu.AddItem` is not part of this model, so the item is created directly rather than added to a menu, and the "\x08" key equivalent and the i18n translation of the title are not kept.
- Tooltips.Sequencer.Show: the window's last tooltip is taken as set, because the source dereferences it without a check.
- Demo, theme constants, app/Application.go, window/Types.h, the internal/x11 casts and the clipboard header are not part of this model.
