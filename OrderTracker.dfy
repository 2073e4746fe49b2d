/**
 * The order tracker card: the four delivery stages, the stage the order has
 * reached, the state each stage is drawn in, and when the cancelled panel and
 * the estimated delivery time appear.
 */
module OrderTracker {
  import opened Types

  datatype OrderStep = OrderStep(key: OrderStatus, labelText: string)

  /** `orderSteps`: the stages in the order they happen. */
  const OrderSteps: seq<OrderStep> := [
    OrderStep(Confirmed, "Order Confirmed"),
    OrderStep(Preparing, "Preparing"),
    OrderStep(OutForDelivery, "Out for Delivery"),
    OrderStep(Delivered, "Delivered")]

  /** `steps.findIndex(step => step.key === status)`: the first position with that key, or -1. */
  function FindStep(steps: seq<OrderStep>, status: OrderStatus): (i: int)
    ensures -1 <= i < |steps|
    ensures i == -1 <==> forall k :: 0 <= k < |steps| ==> steps[k].key != status
    ensures i >= 0 ==> steps[i].key == status && forall k :: 0 <= k < i ==> steps[k].key != status
  {
    if steps == [] then -1
    else if steps[0].key == status then 0
    else
      var j := FindStep(steps[1..], status);
      if j == -1 then -1 else j + 1
  }

  /**
   * `currentStepIndex`: the position of the stage named by the status, or -1
   * for a status no stage has (pending and cancelled).
   */
  function CurrentStepIndex(status: OrderStatus): (i: int)
    ensures -1 <= i < |OrderSteps|
    ensures i >= 0 ==> OrderSteps[i].key == status
    ensures i == -1 <==> status == Pending || status == Cancelled
  {
    assert OrderSteps[0].key == Confirmed && OrderSteps[1].key == Preparing;
    assert OrderSteps[2].key == OutForDelivery && OrderSteps[3].key == Delivered;
    FindStep(OrderSteps, status)
  }

  /** No two stages share a key. */
  lemma StepKeysDistinct()
    ensures forall i, j :: 0 <= i < j < |OrderSteps| ==> OrderSteps[i].key != OrderSteps[j].key
  {
    assert OrderSteps[0].key == Confirmed && OrderSteps[1].key == Preparing;
    assert OrderSteps[2].key == OutForDelivery && OrderSteps[3].key == Delivered;
  }

  /** The current stage is the one whose key is the status, and there is none for any other status. */
  lemma CurrentStepIndexIff(status: OrderStatus, i: nat)
    requires i < |OrderSteps|
    ensures CurrentStepIndex(status) == i <==> OrderSteps[i].key == status
  {
    StepKeysDistinct();
  }

  /** The stage of each status: -1 for an order not yet confirmed and for a cancelled one. */
  lemma CurrentStepIndexValues()
    ensures CurrentStepIndex(Pending) == -1
    ensures CurrentStepIndex(Confirmed) == 0
    ensures CurrentStepIndex(Preparing) == 1
    ensures CurrentStepIndex(OutForDelivery) == 2
    ensures CurrentStepIndex(Delivered) == 3
    ensures CurrentStepIndex(Cancelled) == -1
  {
    assert OrderSteps[0].key == Confirmed && OrderSteps[1].key == Preparing;
    assert OrderSteps[2].key == OutForDelivery && OrderSteps[3].key == Delivered;
    CurrentStepIndexIff(Confirmed, 0);
    CurrentStepIndexIff(Preparing, 1);
    CurrentStepIndexIff(OutForDelivery, 2);
    CurrentStepIndexIff(Delivered, 3);
    forall k | 0 <= k < |OrderSteps|
      ensures OrderSteps[k].key != Pending && OrderSteps[k].key != Cancelled
    {
    }
  }

  datatype StepView = StepView(labelText: string, completed: bool, current: bool, completedCaption: bool)

  /**
   * What the card shows: the cancelled panel or the list of stages, and the
   * estimated delivery time if one is shown.
   */
  datatype TrackerView = TrackerView(cancelledPanel: bool, steps: seq<StepView>, estimatedDelivery: Option<nat>)

  /**
   * The state stage `index` is drawn in while the order has status `status`:
   * its label; current exactly when the status names it; the "Completed"
   * caption exactly on the stages before the current one; completed when
   * either holds.
   */
  function StepState(status: OrderStatus, index: nat): (v: StepView)
    requires index < |OrderSteps|
    ensures v.labelText == OrderSteps[index].labelText
    ensures v.current <==> OrderSteps[index].key == status
    ensures v.completedCaption <==> index < CurrentStepIndex(status)
    ensures v.completed <==> v.completedCaption || v.current
  {
    StepKeysDistinct();
    var current := CurrentStepIndex(status);
    var isCompleted := index <= current;
    var isCurrent := index == current;
    StepView(OrderSteps[index].labelText, isCompleted, isCurrent, isCompleted && !isCurrent)
  }

  /** `OrderTracker`: the panel for a cancelled order, the four stages otherwise. */
  function Track(order: Order): (v: TrackerView)
    ensures v.cancelledPanel <==> order.status == Cancelled
    ensures v.cancelledPanel ==> v.steps == [] && v.estimatedDelivery == None
    ensures !v.cancelledPanel ==> |v.steps| == |OrderSteps| && v.estimatedDelivery == order.estimatedDeliveryTime
  {
    var isCancelled := order.status == Cancelled;
    TrackerView(
      isCancelled,
      if isCancelled then [] else seq(|OrderSteps|, i requires 0 <= i < |OrderSteps| => StepState(order.status, i)),
      if !isCancelled && order.estimatedDeliveryTime.Some? then order.estimatedDeliveryTime else None)
  }

  /**
   * The stages an order has reached are completed and always form a prefix
   * of the list; at most one stage is current, and it is the one named by
   * the status; the "Completed" caption marks exactly the stages before it.
   */
  lemma StepStatesSpec(order: Order)
    requires order.status != Cancelled
    ensures var v, s := Track(order), order.status;
      && (forall i :: 0 <= i < |v.steps| ==> v.steps[i].labelText == OrderSteps[i].labelText)
      && (forall i, j :: 0 <= i < j < |v.steps| && v.steps[j].completed ==> v.steps[i].completed)
      && (forall i, j :: 0 <= i < |v.steps| && 0 <= j < |v.steps| && v.steps[i].current && v.steps[j].current ==> i == j)
      && (forall i :: 0 <= i < |v.steps| ==> (v.steps[i].current <==> OrderSteps[i].key == s))
      && (forall i :: 0 <= i < |v.steps| ==> (v.steps[i].completedCaption <==> i < CurrentStepIndex(s)))
      && (forall i :: 0 <= i < |v.steps| ==> (v.steps[i].completed <==> i <= CurrentStepIndex(s)))
  {
    var v := Track(order);
    forall i | 0 <= i < |v.steps|
      ensures v.steps[i] == StepState(order.status, i)
      ensures v.steps[i].current <==> OrderSteps[i].key == order.status
    {
      CurrentStepIndexIff(order.status, i);
    }
  }

  /** A pending order shows no stage as reached; a delivered one shows all four, the last current. */
  lemma TrackEnds(order: Order)
    ensures order.status == Pending ==>
      forall i :: 0 <= i < |Track(order).steps| ==> !Track(order).steps[i].completed && !Track(order).steps[i].current
    ensures order.status == Delivered ==>
      forall i :: 0 <= i < |Track(order).steps| ==>
        Track(order).steps[i].completed && (Track(order).steps[i].current <==> i == 3)
  {
    CurrentStepIndexValues();
    var v := Track(order);
    forall i | 0 <= i < |v.steps|
      ensures v.steps[i] == StepState(order.status, i)
    {
    }
  }
}
