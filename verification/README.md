# Verified models of libtpl-egl

libtpl-egl passes graphics buffers between an application, a worker or event thread, and a
compositor. This project models that traffic, the containers it is built on, the swap
bookkeeping of the X11 DRI3 backend, and three algorithms of the bundled Google Test and
Google Mock, and proves what each of them is for.

Two forms recur. A *protocol* is a state, an event datatype (or a step relation) and an
inductive invariant, so that its results hold after every run of interleaved events; the class
beside it has the fields and methods of the source, and each method is proved to take exactly
the protocol's step. A *heap structure* or an *in-place algorithm* is a class or an array
method proved to act as a function on the sequence, map or matching it stands for, and lemmas
say what that function means.

| file | models | main results |
|---|---|---|
| `WaylandEgl.dfy` | the dequeue, enqueue, commit, release cycle of `src/tpl_wayland_egl.c` under resets, resizes, flushes and vblanks | references are conserved; every enqueue commits its buffer, with one exception stated exactly; commits are throttled by vblanks; unflagged list members are what the queue tracks, exactly which events break that, and exactly when stray releases can follow; what `validate` answers |
| `WorkerThread.dfy` | the fence-waiting thread of `src/tpl_worker_thread.c` | each buffer is drawn once, in submission order, never before the fence it came with; no wake-up is lost |
| `VulkanWsi.dfy` | `src/tpl_wayland_vk_wsi.c` in MAILBOX mode | references, time stamps, places of buffers, no dequeuer blocked in vain, and exactly when a blocked one can be served |
| `TbmClient.dfy` | the Vulkan branch of `src/tpl_tbm.c` | arrival order is submission order; one reference per place; fences stay with their submissions |
| `TbmSurfaceQueue.dfy` | what the backends rely on in a libtbm queue | its lists hold exactly the buffers in the matching states |
| `WlEglWindow.dfy` | `src/wayland-egl/wayland-egl.c` | the size in the window's own frame survives rotation |
| `TplList.dfy` | the sentinel list of `src/tpl_utils.h` | every operation is its sequence operation |
| `TplHashList.dfy` | the `pprev` hash list of `src/tpl_utils_hlist.c` | back pointers, placement, and a finite map |
| `TplUtilMap.dfy` | the chained map of `src/tpl_utils_map.c` | a finite map, and each stored value destroyed exactly once |
| `X11Dri3.dfy` | counters, ring and ages of `src/tpl_x11_dri3.c` | exact serial merge, exactly when at most one swap is outstanding, exact distinct ages, no buffer reused while the server shows it, and exactly when a search for a buffer ends |
| `MaxBipartiteMatch.dfy` | Google Mock's element matcher | the matching found is maximum |
| `Prerequisites.dfy` | Google Mock's expectation ordering | retirement is exactly the transitive closure; every refusal has an explanation |
| `Shuffle.dfy` | Google Test's shuffle | a bijection from generator outcomes to permutations |
| `Collections.dfy` | shared notions | |

## Where the code does less than its text promises

The models keep the code as it is. Each case below comes with the exact condition under which
the promise holds.

- A queue reset that hits `enqueue_buffer` after the buffer left the dequeued list, and a flush
  that does not call the reset callback, lead to a release of a buffer the queue has forgotten
  (`ResetInsideEnqueueStrays`, `SilentFlushStrays`). `HarmlessIffReleasesCleanly` says exactly
  which events are harmless; atomic calls and notifying flushes are (`AtomicCallsAgree`).
- An enqueue whose buffer the queue is made to forget, by a reset or flush between its enqueue and
  its acquisition, commits nothing (`ForgottenEndsWithoutCommit`); in every other case it commits its
  buffer (`StaysOnItsWayIff`, `EnqueueEndsInCommit`).
- `dri3_wait_for_notify` compares low words, so a swap at a multiple of 2^32 does not wait.
  Along a run of any length at most one swap is outstanding if and only if no swap at such a
  count finds another one outstanding (`OneSwapOutstandingIff`). Whatever the server does, this
  is good for 2^32 swaps and for no more (`ThrottleHoldsIff`, `ThrottleFailsAtWrap`).
- `wl_egl_window_create` reads the rotation before setting it; `CreateHasSizeIff` says when the
  window still gets the size asked for. `RotationKeepsSizeIff` says when a rotation without
  window callbacks keeps the size.
- The 64-bit key comparison of the map calls two keys equal exactly when their low 32 bits agree
  (`Int64CompareIff`), so among given keys it is zero on equal keys only exactly when their low
  32 bits differ pairwise (`Int64CompareSuits`). The map states its hypothesis over a whole key
  type, so with this comparison that must be a type of keys with pairwise distinct low words,
  such as the keys below 2^32 (`Int64CompareSuitsWords`).
- A called expectation need not have all its prerequisites satisfied: an excessive call to an
  expectation that allows none retires nothing. The property holds for expectations with a given
  upper bound if and only if that is positive (`CalledAreSatisfiedIff`, with
  `OverrunAfterExcessiveCall` for the failure). The search for unsatisfied prerequisites is right
  for all, because it stops only at expectations that are called *and* satisfied
  (`RefusalIsExplained`).

## Model

| member | source | states |
|---|---|---|
| WaylandEgl.ReferencesConserved | src/tpl_wayland_egl.c:791-911 | After every run, TPL's references on a buffer equal its places on the dequeued and attached lists, plus one if an enqueue in progress has it in hand |
| WaylandEgl.CommitsAreAcceptedEnqueues | src/tpl_wayland_egl.c:675-785 | After every run, the committed buffers are exactly those whose enqueue returned NONE, in order and with forced commits, and any two commits have a vblank callback between them |
| WaylandEgl.UntrackedIsCommitted | src/tpl_wayland_egl.c:839-911 | Whatever resets and resizes came before, enqueue_buffer undisturbed commits and tracks its own buffer, once, with the window's size as attached size |
| WaylandEgl.EnqueueCommits | src/tpl_wayland_egl.c:791-911 | In every reachable state, a whole undisturbed enqueue_buffer adds exactly a commit of its buffer, after a vblank if one was owed |
| WaylandEgl.StaysOnItsWayIff | src/tpl_wayland_egl.c:822-911 | Whatever event comes during an enqueue, the buffer stays on its way or is committed, if and only if the event does not make the queue forget it between its enqueue and its acquisition |
| WaylandEgl.EnqueueEndsInCommit | src/tpl_wayland_egl.c:822-911 | Along every interleaving without such an event the enqueue goes on or its buffer is the next one committed |
| WaylandEgl.ForgottenEndsWithoutCommit | src/tpl_wayland_egl.c:898-907 | After such an event the acquisition fails and nothing is committed |
| WaylandEgl.ListsStayDisjoint | src/tpl_wayland_egl.c:383-435 | After every run, the tracking lists have no duplicates and no buffer in common |
| WaylandEgl.CallsAreSound | src/tpl_wayland_egl.c:822-902 | The queue answers an enqueue with NONE or UNKNOWN_SURFACE only, callbacks find their buffer's data, and the acquired buffer is the one just enqueued |
| WaylandEgl.EventKeepsInv | src/tpl_wayland_egl.c:383-435 | Each of the eleven kinds of event, anywhere in a cycle, keeps references, lists, queue, presentation and sizes in agreement |
| WaylandEgl.RunKeepsInv | src/tpl_wayland_egl.c:791-1123 | The agreement holds after every run from a new surface |
| WaylandEgl.UnflaggedStayTrackedIff | src/tpl_wayland_egl.c:404-435 | Listed buffers without reset flag stay tracked by the queue across an event if and only if the event is harmless: no reset meets an unflagged buffer in hand, no silent flush meets an unflagged dequeued buffer |
| WaylandEgl.HarmlessRunsReleaseCleanly | src/tpl_wayland_egl.c:1206-1246 | Along harmless events tbm_surface_queue_release is called only on buffers the queue holds as acquired, and an unflagged buffer is never unknown to the queue when enqueued |
| WaylandEgl.TrackedEnqueueSucceeds | src/tpl_wayland_egl.c:842-866 | While unflagged buffers are tracked, the queue accepts every unflagged buffer that is enqueued |
| WaylandEgl.ListsAreTheQueues | src/tpl_wayland_egl.c:383-435 | Between calls the unflagged members of the two lists are exactly the queue's dequeued and acquired buffers, and nothing is dirty |
| WaylandEgl.AtomicCallsAgree | src/tpl_wayland_egl.c:383-435 | From a new surface, when dequeues, resets and flushes find no enqueue in progress and flushes notify, no stray release happens, and between calls the unflagged members of the lists are exactly the queue's dequeued and acquired buffers |
| WaylandEgl.TrackedIffReleasesCleanly | src/tpl_wayland_egl.c:1206-1246 | No stray release can follow through harmless events if and only if all listed buffers without reset flag are tracked by the queue |
| WaylandEgl.HarmlessIffReleasesCleanly | src/tpl_wayland_egl.c:1206-1246 | An event is harmless if and only if no stray release can follow it through harmless events |
| WaylandEgl.ResetInsideEnqueueStrays | src/tpl_wayland_egl.c:822-902 | A run with a reset inside an enqueue whose release reaches a queue that forgot the buffer |
| WaylandEgl.SilentFlushStrays | src/tpl_wayland_egl.c:1395-1447 | The same after a flush that does not call the reset callback |
| WaylandEgl.ValidateIffUndisturbed | src/tpl_wayland_egl.c:913-927 | From one dequeue to the next, validate is true if and only if no reset was reported and the window took no size other than the queue's; then window and queue sizes agree and the queue's generation is the dequeued buffer's unless a flush stayed silent |
| WaylandEgl.EnqueueBufferRuns | src/tpl_wayland_egl.c:791-911 | enqueue_buffer without interference is a run of the protocol's events |
| WaylandEgl.WaylandEglSurface.constructor | src/tpl_wayland_egl.c:471-598 | A new surface is the protocol's initial state |
| WaylandEgl.WaylandEglSurface.SetResetFlag | src/tpl_wayland_egl.c:383-402 | Flags exactly the listed buffers with user data |
| WaylandEgl.WaylandEglSurface.ResetCallback | src/tpl_wayland_egl.c:404-435 | Marks the surface reset and flags the buffers of both lists |
| WaylandEgl.WaylandEglSurface.ApplyPendingResize | src/tpl_wayland_egl.c:1013-1022 | Carries out a pending resize on the queue, which takes the window's size |
| WaylandEgl.WaylandEglSurface.DequeueBuffer | src/tpl_wayland_egl.c:991-1123 | Takes the protocol's dequeue step: applies a pending resize, references and tracks the buffer, clears its flag |
| WaylandEgl.WaylandEglSurface.VblankCallback | src/tpl_wayland_egl.c:697-706 | Takes the vblank step |
| WaylandEgl.WaylandEglSurface.CommitSurface | src/tpl_wayland_egl.c:708-785 | Attaches, commits and tracks the buffer, records the attached size and starts a vblank wait |
| WaylandEgl.WaylandEglSurface.TryQueue | src/tpl_wayland_egl.c:839-887 | Commits a flagged or unknown buffer at once and answers NONE, hands any other dequeued buffer to the queue, and fails only without user data or on another queue error |
| WaylandEgl.WaylandEglSurface.AcquireAndCommitQueued | src/tpl_wayland_egl.c:868-902 | Acquires the oldest dirty buffer with a reference of its own and commits it |
| WaylandEgl.WaylandEglSurface.WaitForVblank | src/tpl_wayland_egl.c:675-695 | Returns with the vblank done |
| WaylandEgl.WaylandEglSurface.EnqueueSurfaceBuffer | src/tpl_wayland_egl.c:791-911 | The whole call is the composition of the protocol's steps; from every reachable state it returns NONE and adds a commit of its buffer |
| WaylandEgl.WaylandEglSurface.ReleaseCallback | src/tpl_wayland_egl.c:1206-1246 | Takes the release step: off the list, to the queue unless flagged, one reference less |
| WaylandEgl.WaylandEglSurface.DropAttachedBuffers | src/tpl_wayland_egl.c:1427-1443 | Empties the attached list and drops one reference for each entry |
| WaylandEgl.WaylandEglSurface.FlushCallback | src/tpl_wayland_egl.c:1395-1447 | Takes the flush step: the queue forgets its buffers, the attached list is dropped |
| WaylandEgl.WaylandEglSurface.ResizeCallback | src/tpl_wayland_egl.c:1252-1275 | Marks the surface resized if and only if the window's size is not the queue's |
| WaylandEgl.WaylandEglSurface.ValidateSurface | src/tpl_wayland_egl.c:913-927 | Answers from the resized and reset flags |
| WlEglWindow.SizeSurvivesRotation | src/wayland-egl/wayland-egl.c:56-222 | With callbacks installed, over all requests the size in the window's own frame is the last size asked for |
| WlEglWindow.OffsetsAndRotationAreLast | src/wayland-egl/wayland-egl.c:56-222 | Over all requests the offsets and the rotation are the last valid ones asked for, even when a resize changes no size |
| WlEglWindow.RotationKeepsSizeIff | src/wayland-egl/wayland-egl.c:174-222 | One rotation keeps that size if and only if it is no quarter turn, or callbacks are installed, or the window is square |
| WlEglWindow.CreateHasSizeIff | src/wayland-egl/wayland-egl.c:110-146 | A created window has the size asked for if and only if the uninitialised rotation was not sideways or the size is square |
| WlEglWindow.EglWindow.ResizeWindow | src/wayland-egl/wayland-egl.c:56-103 | The in-place update is the modelled resize, and it says whether the resize callback is due |
| WlEglWindow.EglWindow.SetWindowRotation | src/wayland-egl/wayland-egl.c:174-222 | The in-place update is the modelled rotation, and it says whether the resize callback is due |
| WorkerThread.NoLostWakeup | src/tpl_worker_thread.c:70-167 | In every reachable state with the worker in epoll_wait, each registered surface has nothing pending, or a buffer parked on a fence in the epoll set, or the eventfd is readable, or a producer has yet to notify |
| WorkerThread.DrawnOnceInOrder | src/tpl_worker_thread.c:89-159 | In every reachable state, submitted == drawn ++ in hand ++ parked ++ pending; the loops over the two buffer sources have the same steps |
| WorkerThread.ParkedWaitForTheirFence | src/tpl_worker_thread.c:381-419 | A submission parked on its fence is drawn only after that fence signalled |
| WorkerThread.FencedWaitForTheirFence | src/tpl_worker_thread.c:100-119 | In every reachable state, a submission that came with a fence has been drawn only if the fence has signalled or epoll_ctl refused it |
| WorkerThread.SignalledParkedIsDrawn | src/tpl_worker_thread.c:394-411 | The event of a parked buffer whose fence has signalled draws it, closes its fence and frees the place |
| WorkerThread.HistoriesGrow | src/tpl_worker_thread.c:89-159 | No step takes back a submission, a draw or a parking |
| WorkerThread.BlockedMeansDrained | src/tpl_worker_thread.c:329-374 | A worker that blocks with all registered fences signalled and no notification due has drawn everything submitted |
| WorkerThread.WorkerNeverStuck | src/tpl_worker_thread.c:329-374 | The worker always has a step or polls with nothing ready; its eventfd read never blocks |
| WorkerThread.RunKeepsInv | src/tpl_worker_thread.c:305-437 | The invariant holds in every interleaving of producers, registrations, fences and worker |
| WorkerThread.PathKeepsInv | src/tpl_worker_thread.c:305-437 | So does every state the worker's own code passes through |
| WorkerThread.Worker.constructor | src/tpl_worker_thread.c:305-328 | An initialised worker is the machine's initial state |
| WorkerThread.Worker.SurfaceListInsert | src/tpl_worker_thread.c:40-54 | Appends the surface with no parked buffer |
| WorkerThread.Worker.SurfaceListRemove | src/tpl_worker_thread.c:56-68 | Takes one entry of the surface off the list if there is one, and changes nothing else |
| WorkerThread.Worker.SubmitBuffer | src/tpl_tbm.c:545-554 | A producer's push puts the buffer last, with its fence, and leaves a notification owed |
| WorkerThread.Worker.NewBufferNotify | src/tpl_worker_thread.c:70-87 | Pays one owed notification into the eventfd |
| WorkerThread.Worker.AcquireBuffer | src/tpl_worker_thread.c:126-136 | Takes the oldest pending buffer |
| WorkerThread.Worker.ParkOrDraw | src/tpl_worker_thread.c:138-157 | Parks the buffer if and only if it has a fence that epoll_ctl accepts, and draws any other at once |
| WorkerThread.Worker.PrepareDrawWaitBuffer | src/tpl_worker_thread.c:89-159 | Every step is a worker step; on return the surface has nothing pending or a parked buffer, and no other surface changed |
| WorkerThread.Worker.PrepareSurfaces | src/tpl_worker_thread.c:332-347 | After the locked part of the loop this holds for every registered surface |
| WorkerThread.Worker.HandleEvent | src/tpl_worker_thread.c:357-419 | An event of a surface draws its parked buffer exactly when the fence has signalled and waiting for it does not fail; the eventfd is emptied by its own event only |
| WorkerThread.Worker.HandleEvents | src/tpl_worker_thread.c:356-425 | Every reported event is handled in this way, in order, and the loop is back at preparing |
| VulkanWsi.ReferencesAndStamps | src/tpl_wayland_vk_wsi.c:423-466 | After every run, references == (1 if the application holds the buffer) + commits - releases, and sync_timestamp counts the commits |
| VulkanWsi.BuffersStayPlaced | src/tpl_wayland_vk_wsi.c:468-676 | After every run each swapchain buffer is in exactly one of: free, with the application, enqueued, with the worker |
| VulkanWsi.FencesArrive | src/tpl_wayland_vk_wsi.c:494-502 | After every run, a buffer in the queue or with the worker carries the fence of its last enqueue, a free one none, and the worker was notified of every enqueue |
| VulkanWsi.BlockedMeansSignalsDue | src/tpl_wayland_vk_wsi.c:604-659 | After every run, while a dequeuer is blocked no buffer is free or a signal is owed, in fact one for each free buffer; and at most one dequeuer is inside |
| VulkanWsi.WaitingIsServedIff | src/tpl_wayland_vk_wsi.c:604-659 | A dequeuer inside the wait can still be served, other than by a time-out, if and only if some swapchain buffer is not with the application |
| VulkanWsi.CommitGivesBack | src/tpl_wayland_vk_wsi.c:423-466 | A whole commit_buffer leaves the buffer last in the free list, one commit added, and one waiting dequeuer woken |
| VulkanWsi.EventKeepsInv | src/tpl_wayland_vk_wsi.c:423-676 | Every event, spurious wake-ups and time-outs among them, keeps the invariant and the set of swapchain buffers |
| VulkanWsi.RunKeepsInv | src/tpl_wayland_vk_wsi.c:423-676 | So does every run |
| VulkanWsi.VulkanSurface.DequeueFree | src/tpl_wayland_vk_wsi.c:661-707 | Hands out the oldest free buffer with a reference, and a fence for its commits so far unless there were none |
| VulkanWsi.VulkanSurface.EnqueueSurfaceBuffer | src/tpl_wayland_vk_wsi.c:468-545 | Gives up the application's reference, stores the fence, the queue accepts the buffer as its last, and the worker is notified |
| VulkanWsi.VulkanSurface.DrawWaitFdGet | src/tpl_wayland_vk_wsi.c:835-850 | For a buffer acquired and not drawn, the fence of its last enqueue |
| VulkanWsi.VulkanSurface.ProcessDrawDone | src/tpl_wayland_vk_wsi.c:778-833 | Closes the fence and commits: the buffer is last in the free list with one more commit on its time stamp |
| VulkanWsi.VulkanSurface.CommitSurfaceBuffer | src/tpl_wayland_vk_wsi.c:423-466 | Is the commit, give-back and signal steps in this order |
| VulkanWsi.VulkanSurface.ReleaseCallback | src/tpl_wayland_vk_wsi.c:1129-1144 | A release of a committed buffer drops one reference |
| TbmClient.ArriveInSubmissionOrder | src/tpl_tbm.c:232-283 | After every run, submitted == arrived ++ with the worker ++ waiting, and the queue accepts what the worker draws |
| TbmClient.FencesArrive | src/tpl_tbm.c:545-554 | After every run, a buffer that waits or is with the worker carries the fence of its own submission, one back in the queue carries none, and the worker was notified of every submission |
| TbmClient.ReferencesMatchPlaces | src/tpl_tbm.c:512-554 | After every run, references are one exactly while the buffer is with the application, waiting or with the worker, which never overlap and are what the queue calls dequeued |
| TbmClient.RunKeepsInv | src/tpl_tbm.c:232-638 | The invariant holds after every run |
| TbmClient.TbmSurface.DequeueBuffer | src/tpl_tbm.c:583-638 | Takes the dequeue step |
| TbmClient.TbmSurface.EnqueueBuffer | src/tpl_tbm.c:512-554 | Stores the fence of this submission, puts the buffer last in the waiting list and notifies the worker |
| TbmClient.TbmSurface.DrawWaitBufferGet | src/tpl_tbm.c:338-350 | Hands the oldest waiting buffer to the worker, or nothing |
| TbmClient.TbmSurface.DrawWaitFdGet | src/tpl_tbm.c:289-300 | The fence that came with the submission the worker holds |
| TbmClient.TbmSurface.FinishDraw | src/tpl_tbm.c:232-283 | Closes the fence and drops the reference, and the buffer enters the queue |
| TplList.List.constructor | src/tpl_utils.h:372-386 | A new list is empty and well linked |
| TplList.List.Insert | src/tpl_utils.h:526-548 | Puts the datum behind the given node and keeps the list well linked |
| TplList.List.Remove | src/tpl_utils.h:510-524 | Takes out exactly that node and frees its datum once if asked |
| TplList.List.PushFront | src/tpl_utils.h:609-615 | Prepends |
| TplList.List.PushBack | src/tpl_utils.h:617-623 | Appends |
| TplList.List.PopFront | src/tpl_utils.h:625-638 | Returns and removes the first datum, NULL when empty |
| TplList.List.PopBack | src/tpl_utils.h:640-653 | Returns and removes the last datum, NULL when empty |
| TplList.List.RemoveFirstData | src/tpl_utils.h:549-573 | Removes the first occurrence and frees it once if asked |
| TplList.List.RemoveLastData | src/tpl_utils.h:574-591 | Removes the last occurrence and frees it once if asked |
| TplList.List.RemoveAllData | src/tpl_utils.h:592-607 | Removes every occurrence, freeing one datum for each |
| TplList.List.RemoveData | src/tpl_utils.h:549-607 | Each of the three removals is its sequence meaning |
| TplList.List.Fini | src/tpl_utils.h:388-409 | Empties the list, freeing each datum once in order |
| TplList.List.IsEmpty | src/tpl_utils.h:364-370 | True if and only if there is no datum |
| TplList.List.GetFrontNode | src/tpl_utils.h:441-449 | The first node, NULL for an empty list |
| TplList.List.GetBackNode | src/tpl_utils.h:451-459 | The last node, NULL for an empty list |
| TplList.List.Forward | src/tpl_utils.h:473-484 | Following the next links yields the contents |
| TplList.List.Backward | src/tpl_utils.h:461-471 | Following the previous links yields the contents reversed |
| TplList.RemoveFirstAt | src/tpl_utils.h:549-573 | Removal of the first occurrence takes exactly its position out |
| TplList.RemovedAt | src/tpl_utils.h:549-591 | Removing the first or the last occurrence takes out one position, with no other occurrence before or behind it |
| TplList.RemovedAbsent | src/tpl_utils.h:549-607 | Removing a datum that is not there changes nothing |
| TplList.RemoveAllSplits | src/tpl_utils.h:592-607 | Removing all occurrences takes out each one and keeps the order of the rest |
| TplList.RemoveLastMirrorsFirst | src/tpl_utils.h:574-591 | Removing the last occurrence is removing the first from the reversed sequence |
| TplList.RemoveAllCounts | src/tpl_utils.h:592-607 | Removing all occurrences removes them and nothing else |
| TplList.RemovalLengths | src/tpl_utils.h:549-607 | How much shorter each removal makes the list |
| TplHashList.CalcHash | src/tpl_utils_hlist.c:8 | Every hash is below the number of heads |
| TplHashList.BackPointersHold | src/tpl_utils_hlist.c:60-85 | In a linked chain the pointer each pprev names points at its node |
| TplHashList.AddHead | src/tpl_utils_hlist.c:73-85 | Links the node in front of the chain |
| TplHashList.Del | src/tpl_utils_hlist.c:60-71 | Takes exactly that node out of the chain |
| TplHashList.HashList.NodesAreInPlace | src/tpl_utils_hlist.c:60-120 | In every valid list *(n->pprev) == n, each node is in the chain of its own hash, and no node or key occurs twice |
| TplHashList.HashList.constructor | src/tpl_utils_hlist.c:141-160 | A new hash list is the empty map |
| TplHashList.HashList.GetNode | src/tpl_utils_hlist.c:106-120 | Finds the key's node if and only if the key is in the map |
| TplHashList.HashList.Insert | src/tpl_utils_hlist.c:194-226 | Adds the entry, or rejects a key already present and changes nothing |
| TplHashList.HashList.Delete | src/tpl_utils_hlist.c:228-238 | Removes the key and frees its node, if present |
| TplHashList.HashList.Lookup | src/tpl_utils_hlist.c:255-264 | The datum stored under the key, NULL if none |
| TplHashList.HashList.Destroy | src/tpl_utils_hlist.c:162-192 | Frees every node exactly once |
| TplUtilMap.Int64CompareIff | src/tpl_utils_map.c:44-49 | The 64-bit comparison is zero exactly on keys with equal low words, hence not only on equal keys |
| TplUtilMap.Int64CompareSuits | src/tpl_utils_map.c:44-49 | Among given keys it is zero exactly on equal keys if and only if their low words differ pairwise |
| TplUtilMap.Int64CompareSuitsWords | src/tpl_utils_map.c:44-49 | Over the keys below 2^32 it meets the map's hypothesis |
| TplUtilMap.SetConserves | src/tpl_utils_map.c:250-316 | A set takes on what it stores and frees what it displaces, and nothing else |
| TplUtilMap.UtilMap.constructor | src/tpl_utils_map.c:113-130 | A new map is empty, over any hash and any comparison that is zero exactly on equal keys |
| TplUtilMap.UtilMap.Find | src/tpl_utils_map.c:250-277 | Finds the key's entry and its predecessor if and only if the key is in the map |
| TplUtilMap.UtilMap.Get | src/tpl_utils_map.c:227-248 | The datum stored under the key, NULL if none |
| TplUtilMap.UtilMap.FreeEntry | src/tpl_utils_map.c:270-271 | Calls the entry's free function, if it has one, on the entry's data |
| TplUtilMap.UtilMap.Set | src/tpl_utils_map.c:250-316 | Stores, overwrites or (with NULL) deletes as on a finite map; the calls of free functions it makes are exactly that of the value it displaces |
| TplUtilMap.UtilMap.FreeAll | src/tpl_utils_map.c:204-224 | The loops of clear free every live value exactly once |
| TplUtilMap.UtilMap.Clear | src/tpl_utils_map.c:204-224 | Leaves the empty map; the calls of free functions it makes are one for each live value, so everything ever entrusted has been destroyed exactly once |
| X11Dri3.MergeRecoversIff | src/tpl_x11_dri3.c:488-493 | The merged serial is the true 64-bit count if and only if that is less than 2^32 below the sent count |
| X11Dri3.StepKeepsOneOutIff | src/tpl_x11_dri3.c:562-592 | From a state with at most one swap outstanding, a step leads to another such state if and only if it is not a swap at a multiple of 2^32 with the received count behind |
| X11Dri3.OneSwapOutstandingIff | src/tpl_x11_dri3.c:562-592 | Along every run, at most one swap is ever outstanding and the received count is exact, if and only if no such swap occurs |
| X11Dri3.PresentWaitsIff | src/tpl_x11_dri3.c:992-1030 | When a further swap may be presented, recv_sbc == send_sbc and nothing is outstanding, if and only if that swap is not such a one |
| X11Dri3.FirstSwapsNeverSlip | src/tpl_x11_dri3.c:562-592 | Among the first 2^32 swaps there is no such one |
| X11Dri3.PresentsWaitForCompletion | src/tpl_x11_dri3.c:992-1030 | So recv_sbc == send_sbc, with nothing outstanding, before each of the first 2^32 presents |
| X11Dri3.ThrottleHoldsIff | src/tpl_x11_dri3.c:562-592 | At most one swap is outstanding after every run of up to n swaps if and only if n is at most 2^32 |
| X11Dri3.ThrottleFailsAtWrap | src/tpl_x11_dri3.c:570-573 | A run of 2^32 + 1 swaps after which two are outstanding |
| X11Dri3.CompletionsAreSteps | src/tpl_x11_dri3.c:480-493 | With a server that echoes serials in order, the events a drawable consumes are completion steps of the run |
| X11Dri3.WaitAchievesIff | src/tpl_x11_dri3.c:562-592 | With such a server, what the drawable has consumed when its wait is over leaves nothing outstanding if and only if the coming swap is not one at a multiple of 2^32 with the received count behind |
| X11Dri3.PassVisitsAll | src/tpl_x11_dri3.c:610-612 | A pass over the ring looks at every slot |
| X11Dri3.PassVisitsOnce | src/tpl_x11_dri3.c:610-612 | And at none twice |
| X11Dri3.Drawable.constructor | src/tpl_x11_dri3.c:239-311 | A new drawable has empty slots, zero counts and nothing shown |
| X11Dri3.Drawable.MarkIdle | src/tpl_x11_dri3.c:512-526 | Makes idle exactly the buffer in the first slot that has the pixmap named |
| X11Dri3.Drawable.NoteCompletion | src/tpl_x11_dri3.c:488-508 | Takes the completion step of the swap counters, and records mode, ust and msc |
| X11Dri3.Drawable.HandlePresentEvent | src/tpl_x11_dri3.c:464-530 | Each kind of event has its one effect: an idle event makes the first buffer with its pixmap idle and no other; ages are not touched, and every buffer the server still shows stays posted |
| X11Dri3.Drawable.WaitForNotify | src/tpl_x11_dri3.c:562-592 | Consumes exactly the events up to the first after which the low words say the wait is over, and succeeds if and only if there is one; counters, statuses and the rest are what those events make of them |
| X11Dri3.Drawable.LetGoBehind | src/tpl_x11_dri3.c:611-618 | The buffer two places behind becomes idle unless it is posted, and no other changes |
| X11Dri3.Drawable.ScanRing | src/tpl_x11_dri3.c:610-624 | A pass finds the slot at its first place whose buffer was not busy or posted on entry, or, at the last two places, not posted; it finds nothing if and only if there is none |
| X11Dri3.Drawable.FullRingHasNoFreeSlot | src/tpl_x11_dri3.c:610-624 | Where a pass would find nothing, no slot is empty or idle |
| X11Dri3.Drawable.Search | src/tpl_x11_dri3.c:599-638 | Ends with the first pass that finds a slot: at once if the ring is not full; after one event if a busy buffer was let go; otherwise with the first event that frees a back buffer; and fails if the events run out |
| X11Dri3.Drawable.FindBack | src/tpl_x11_dri3.c:599-638 | The same, with the slot at the first place of that pass; no event is consumed if and only if the ring was not full on entry; every buffer the server still shows stays posted |
| X11Dri3.Drawable.FillSlot | src/tpl_x11_dri3.c:796-829 | Keeps a fitting buffer, replaces any other by a new one of the drawable's size |
| X11Dri3.Drawable.GetWindowBuffer | src/tpl_x11_dri3.c:777-838 | Hands out a buffer if and only if the search finds a slot and the buffer there fits or another can be had; in every reachable state it has the drawable's size and is not one that was posted without an idle event for its pixmap since; all ages stay exact |
| X11Dri3.AgeStep | src/tpl_x11_dri3.c:1003-1007 | The ageing loop moves a positive age one ahead of send_sbc - last_swap + 1 |
| X11Dri3.LifeAgeStep | src/tpl_x11_dri3.c:1003-1008 | A buffer posted by one of the last 2^32 - 1 swaps has as age the number of swaps since, counting its own; the ageing loop and the next count keep this |
| X11Dri3.Drawable.AgeBuffers | src/tpl_x11_dri3.c:1003-1007 | Every back buffer with a positive age ages by one |
| X11Dri3.Drawable.Post | src/tpl_x11_dri3.c:1003-1024 | Afterwards every buffer posted by one of the last 2^32 - 1 swaps has age send_sbc - last_swap + 1, no two agree, the posted buffer's is 1, and the server shows it |
| X11Dri3.Drawable.SwapBuffers | src/tpl_x11_dri3.c:966-1046 | Succeeds if and only if the wait is over after some of the events, at once if it was over before; then takes exactly the present step of the swap counters and keeps all ages exact; else counts none |
| MaxBipartiteMatch.MaxBipartiteMatchState.TryAugment | tc/libs/gtest/googlemock/src/gmock-matchers.cc:240-285 | On success the vectors are mutually inverse again, use only edges, and exactly ilhs is newly matched on the left; on failure they are unchanged and all newly seen nodes are exhausted; dead ends keep their matches |
| MaxBipartiteMatch.MaxBipartiteMatchState.Compute | tc/libs/gtest/googlemock/src/gmock-matchers.cc:206-238 | Returns a matching, without repeated pairs, than which no matching of the graph is larger |
| MaxBipartiteMatch.FindMaxBipartiteMatching | tc/libs/gtest/googlemock/src/gmock-matchers.cc:307-310 | The same for every graph, from fresh vectors |
| MaxBipartiteMatch.DeadEndIsMaximum | tc/libs/gtest/googlemock/src/gmock-matchers.cc:136-198 | A matching whose failed left nodes see only a dead end is maximum: every matching injects into it |
| MaxBipartiteMatch.MutualIsMatching | tc/libs/gtest/googlemock/src/gmock-matchers.cc:155-162 | Mutually inverse vectors that use only edges are a matching |
| MaxBipartiteMatch.AugmentThrough | tc/libs/gtest/googlemock/src/gmock-matchers.cc:259-285 | Taking over a right node whose partner was rerouted augments the matching |
| MaxBipartiteMatch.CoverIsFullSize | tc/libs/gtest/googlemock/src/gmock-matchers.cc:328-344 | A matching covers all matchers if and only if it has one pair for each |
| MaxBipartiteMatch.FindPairing | tc/libs/gtest/googlemock/src/gmock-matchers.cc:328-344 | True if and only if some matching covers every matcher, and then the pairs are one |
| Prerequisites.RetireAllPreRequisites | tc/libs/gtest/googlemock/src/gmock-spec-builders.cc:94-111 | On every acyclic graph with the retired set closed: terminates, retires exactly the transitive prerequisites, keeps the set closed |
| Prerequisites.AllPrerequisitesAreSatisfied | tc/libs/gtest/googlemock/src/gmock-spec-builders.cc:113-125 | True if and only if every transitive prerequisite is satisfied |
| Prerequisites.FindUnsatisfiedPrerequisites | tc/libs/gtest/googlemock/src/gmock-spec-builders.cc:127-146 | Adds exactly the unsatisfied prerequisites reached through satisfied ones that were never called |
| Prerequisites.BlockersAreUnsatisfied | tc/libs/gtest/googlemock/src/gmock-spec-builders.cc:127-146 | All of them are unsatisfied transitive prerequisites |
| Prerequisites.NothingBlocksIff | tc/libs/gtest/googlemock/src/gmock-spec-builders.cc:113-146 | None is found if and only if all transitive prerequisites are satisfied, when called and satisfied expectations have theirs satisfied |
| Prerequisites.RefusalIsExplained | tc/libs/gtest/googlemock/include/gmock/gmock-spec-builders.h:1128-1140 | In every state calls can reach, that hypothesis holds, so a refused call always has something to report |
| Prerequisites.DeclareKeepsInv | tc/libs/gtest/googlemock/src/gmock-spec-builders.cc:70-82 | Declaring an expectation after its prerequisites keeps the graph acyclic and the invariant |
| Prerequisites.CalledHasSatisfied | tc/libs/gtest/googlemock/include/gmock/gmock-spec-builders.h:1188-1216 | In every state calls can reach, a called expectation that allows calls has all its prerequisites satisfied |
| Prerequisites.CalledAreSatisfiedIff | tc/libs/gtest/googlemock/include/gmock/gmock-spec-builders.h:1188-1216 | Called expectations with a given upper bound have all prerequisites satisfied if and only if the bound is positive |
| Prerequisites.OverrunAfterExcessiveCall | tc/libs/gtest/googlemock/include/gmock/gmock-spec-builders.h:1188-1216 | Calls after which a called expectation with bound 0 has an unsatisfied prerequisite |
| Prerequisites.MayHandle | tc/libs/gtest/googlemock/include/gmock/gmock-spec-builders.h:1090-1102 | An expectation may handle a call if and only if it is not retired and all before it are satisfied |
| Prerequisites.GetActionForArguments | tc/libs/gtest/googlemock/include/gmock/gmock-spec-builders.h:1188-1216 | Handling a call keeps the invariant; an excessive call retires nothing, any other retires all before it |
| Prerequisites.FindMatchingExpectation | tc/libs/gtest/googlemock/include/gmock/gmock-spec-builders.h:1711-1728 | The newest expectation that matches and may handle the call |
| Prerequisites.HandleCall | tc/libs/gtest/googlemock/include/gmock/gmock-spec-builders.h:1680-1701 | One call counts on one expectation, keeps the invariant, and never touches a retired expectation |
| Shuffle.ShuffleRange | tc/libs/gtest/googletest/src/gtest-internal-inl.h:312-329 | The in-place loop is the shuffle function of the generator's outcomes, and bad ranges are refused |
| Shuffle.ShuffleRearranges | tc/libs/gtest/googletest/src/gtest-internal-inl.h:312-329 | The outside is untouched and the inside is permuted |
| Shuffle.ShuffleIsInjective | tc/libs/gtest/googletest/src/gtest-internal-inl.h:312-329 | On distinct elements, different outcomes give different results |
| Shuffle.ShuffleIsSurjective | tc/libs/gtest/googletest/src/gtest-internal-inl.h:312-329 | Every rearrangement comes from some in-range outcomes |
| Shuffle.ShuffleIsBijection | tc/libs/gtest/googletest/src/gtest-internal-inl.h:312-329 | Every rearrangement comes from exactly one sequence of in-range outcomes |

## Left out

- libtbm, Wayland, xcb, tdm, epoll, eventfd and file descriptors: abstract events and the queue of `TbmSurfaceQueue.dfy`. Assumed of them: a release comes only for an attached or committed buffer, an attached buffer is new to the backend, a queue reset keeps the size unless the backend sets one, writes to the eventfd succeed, and epoll reports only what is ready.
- Whether a queue flush calls the reset callback is libtbm's choice and a parameter of the flush event.
- FIFO and FIFO_RELAXED modes and the vblank lists: swapchain creation overwrites the mode with MAILBOX.
- Running out of memory, surface teardown with buffers still out, and queue errors other than UNKNOWN_SURFACE.
- WaylandEgl: several producers on one surface; the wait for a dequeuable buffer; damage rectangles; display and config queries.
- WorkerThread.Worker.SubmitBuffer: the push is one atomic step, because the enqueue side of `src/tpl_tbm.c:551` initialises the mutex where a lock is meant.
- WorkerThread: surfaces are named afresh at each swapchain, and a fence by its surface and submission, so that no name is reused; shutting the thread down; the vblank client, whose registration is commented out.
- VulkanWsi: the wait loop of dequeue is modelled by its steps (enter, wake, check again, time out), not as one sequential method; the surface lock that `src/tpl_surface.c:215-234` and `278-297` hold around dequeue and enqueue is a guard of those steps; get_swapchain_buffers; the sync timeline behind the fence that dequeue returns.
- TbmClient: the branch for surfaces without a swapchain, and dequeues for which the queue has nothing to hand out.
- TplHashList: add_before, add_behind, get_tail_node and do_for_all_nodes.
- TplUtilMap: key lengths and copied keys, the mixing hashes, and failed allocation; keys are compared through any function that is zero exactly on equal keys.
- X11Dri3.Drawable.GetWindowBuffer: when waiting for events fails the source goes on with slot -1; the model returns no buffer.
- X11Dri3: drawable creation through the display, pixmap and front buffers, target counters, and the DRI2 backend.
- Prerequisites: argument matching is a given answer for each expectation; actions, sequences as a way of declaring prerequisites, and the locking.
- Shuffle: the generator's arithmetic; its outcomes are an argument.
- The GBM backend, backend selection, the runtime display registry, logging and dumping, and the rest of the test library.
