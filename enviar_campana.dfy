/**
 * The campaign wizard (src/components/EnviarCampana.tsx): three steps
 * (type, recipients, configuration) driven by button and checkbox handlers
 * that update the component's state.
 */
module EnviarCampana {
  import opened Wrappers
  import opened Collections

  /** The ids of the four campaign types offered in step 1. */
  const CampaignTypes: seq<string> :=
    ["autoevaluacion", "evaluacion-pares", "evaluacion-superior", "evaluacion-subordinado"]

  /** What the send handler hands on: the wizard's collected fields. */
  datatype Campaign = Campaign(
    tipo: string, destinatarios: seq<string>, asunto: string, mensaje: string,
    fechaInicio: string, fechaFin: string)

  /** A checkbox change: a tick appends the id, clearing it removes every occurrence. */
  function WithRecipient(destinatarios: seq<string>, id: string, checked: bool): (r: seq<string>)
    ensures checked ==> r == destinatarios + [id]
    ensures !checked ==> id !in r && forall x :: x != id ==> (x in r <==> x in destinatarios)
  {
    if checked then destinatarios + [id] else RemoveAll(destinatarios, id)
  }

  /** Ticking and then clearing a box leaves the recipients as clearing alone would. */
  lemma {:induction false} TickThenClear(destinatarios: seq<string>, id: string)
    ensures WithRecipient(WithRecipient(destinatarios, id, true), id, false) == RemoveAll(destinatarios, id)
  {
    RemoveAllAppend(destinatarios, [id], id);
    assert RemoveAll([id], id) == [];
    assert RemoveAll(destinatarios, id) + [] == RemoveAll(destinatarios, id);
  }

  /** Removal distributes over concatenation. */
  lemma {:induction false} RemoveAllAppend<T(!new)>(a: seq<T>, b: seq<T>, x: T)
    ensures RemoveAll(a + b, x) == RemoveAll(a, x) + RemoveAll(b, x)
  {
    if a == [] {
      assert a + b == b;
    } else {
      assert (a + b)[0] == a[0] && (a + b)[1..] == a[1..] + b;
      RemoveAllAppend(a[1..], b, x);
    }
  }

  /** Ticking a box that was clear and clearing it again restores the recipients. */
  lemma TickThenClearRestores(destinatarios: seq<string>, id: string)
    requires id !in destinatarios
    ensures WithRecipient(WithRecipient(destinatarios, id, true), id, false) == destinatarios
  {
    TickThenClear(destinatarios, id);
  }

  /** The four inputs of step 3: subject, message, start date, end date. */
  datatype ConfigField = Asunto | Mensaje | FechaInicio | FechaFin

  /** "Enviar Campaña" is enabled when subject, message and both dates are filled in. */
  predicate SendEnabled(asunto: string, mensaje: string, fechaInicio: string, fechaFin: string) {
    asunto != "" && mensaje != "" && fechaInicio != "" && fechaFin != ""
  }

  /**
   * One step of the progress bar: its number, whether its circle is
   * highlighted, and, for steps 1 and 2, whether the bar after it is.
   */
  datatype BarStep = BarStep(numero: int, marker: bool, connector: Option<bool>)

  /** The bar rendered over `[1, 2, 3]` for the current step. */
  function ProgressBar(paso: int): (bar: seq<BarStep>)
    ensures |bar| == 3
    ensures forall i :: 0 <= i < 3 ==> bar[i].numero == i + 1 && (bar[i].connector.Some? <==> i < 2)
  {
    seq(3, i requires 0 <= i < 3 =>
      var n := i + 1;
      BarStep(n, paso >= n, if n < 3 then Some(paso > n) else None))
  }

  /**
   * In each of the wizard's steps the bar is lit up to the current step:
   * exactly the first `paso` circles and the first `paso - 1` connectors,
   * so a lit connector always joins two lit circles.
   */
  lemma ProgressBarLitToStep(paso: int)
    requires 1 <= paso <= 3
    ensures forall i :: 0 <= i < 3 ==> (ProgressBar(paso)[i].marker <==> i < paso)
    ensures forall i :: 0 <= i < 2 ==> (ProgressBar(paso)[i].connector == Some(true) <==> i < paso - 1)
    ensures forall i :: 0 <= i < 2 && ProgressBar(paso)[i].connector == Some(true) ==>
              ProgressBar(paso)[i].marker && ProgressBar(paso)[i + 1].marker
  {
  }

  /** The wizard's state. */
  class CampaignWizard {
    var paso: int
    var tipo: string
    var destinatarios: seq<string>
    var asunto: string
    var mensaje: string
    var fechaInicio: string
    var fechaFin: string

    /**
     * What the handlers keep true: the step is 1, 2 or 3; past step 1 a
     * campaign type has been chosen; in step 3 there is a recipient.
     */
    predicate Valid()
      reads this
    {
      1 <= paso <= 3
      && (paso >= 2 ==> tipo in CampaignTypes)
      && (paso == 3 ==> |destinatarios| > 0)
    }

    /** The initial state: step 1, everything empty. */
    constructor ()
      ensures Valid()
      ensures paso == 1 && tipo == "" && destinatarios == []
      ensures asunto == "" && mensaje == "" && fechaInicio == "" && fechaFin == ""
    {
      paso := 1;
      tipo := "";
      destinatarios := [];
      asunto := "";
      mensaje := "";
      fechaInicio := "";
      fechaFin := "";
    }

    /** Step 1: a campaign type button records the type and moves to step 2. */
    method ChooseType(id: string)
      requires Valid() && paso == 1 && id in CampaignTypes
      modifies this
      ensures Valid()
      ensures tipo == id && paso == 2
      ensures destinatarios == old(destinatarios) && asunto == old(asunto) && mensaje == old(mensaje)
      ensures fechaInicio == old(fechaInicio) && fechaFin == old(fechaFin)
    {
      tipo := id;
      paso := 2;
    }

    /** Step 2: a recipient checkbox changes. */
    method SetRecipient(id: string, checked: bool)
      requires Valid() && paso == 2
      modifies this
      ensures Valid()
      ensures destinatarios == WithRecipient(old(destinatarios), id, checked)
      ensures paso == 2 && tipo == old(tipo) && asunto == old(asunto) && mensaje == old(mensaje)
      ensures fechaInicio == old(fechaInicio) && fechaFin == old(fechaFin)
    {
      if checked {
        destinatarios := destinatarios + [id];
      } else {
        destinatarios := RemoveAll(destinatarios, id);
      }
    }

    /** Step 2: "Continuar", disabled while nobody is selected. */
    method Continue()
      requires Valid() && paso == 2
      modifies this
      ensures Valid()
      ensures paso == (if |old(destinatarios)| == 0 then 2 else 3)
      ensures tipo == old(tipo) && destinatarios == old(destinatarios) && asunto == old(asunto)
      ensures mensaje == old(mensaje) && fechaInicio == old(fechaInicio) && fechaFin == old(fechaFin)
    {
      if |destinatarios| > 0 {
        paso := 3;
      }
    }

    /** The "Atrás" buttons: from step 2 to 1, and from step 3 to 2. */
    method Back()
      requires Valid() && paso >= 2
      modifies this
      ensures Valid()
      ensures paso == old(paso) - 1
      ensures tipo == old(tipo) && destinatarios == old(destinatarios) && asunto == old(asunto)
      ensures mensaje == old(mensaje) && fechaInicio == old(fechaInicio) && fechaFin == old(fechaFin)
    {
      paso := paso - 1;
    }

    /** Step 3: the `onChange` of one of the four inputs stores its text. */
    method SetField(field: ConfigField, value: string)
      requires Valid() && paso == 3
      modifies this
      ensures Valid()
      ensures asunto == (if field == Asunto then value else old(asunto))
      ensures mensaje == (if field == Mensaje then value else old(mensaje))
      ensures fechaInicio == (if field == FechaInicio then value else old(fechaInicio))
      ensures fechaFin == (if field == FechaFin then value else old(fechaFin))
      ensures paso == 3 && tipo == old(tipo) && destinatarios == old(destinatarios)
    {
      match field
      case Asunto => asunto := value;
      case Mensaje => mensaje := value;
      case FechaInicio => fechaInicio := value;
      case FechaFin => fechaFin := value;
    }

    /**
     * Step 3: "Enviar Campaña". The handler only hands the collected fields
     * on; nothing happens while the button is disabled.
     */
    method Send() returns (sent: Option<Campaign>)
      requires Valid() && paso == 3
      ensures sent.Some? <==> SendEnabled(asunto, mensaje, fechaInicio, fechaFin)
      ensures sent.Some? ==> sent.value == Campaign(tipo, destinatarios, asunto, mensaje, fechaInicio, fechaFin)
      ensures sent.Some? ==> sent.value.tipo in CampaignTypes && |sent.value.destinatarios| > 0
    {
      if SendEnabled(asunto, mensaje, fechaInicio, fechaFin) {
        sent := Some(Campaign(tipo, destinatarios, asunto, mensaje, fechaInicio, fechaFin));
      } else {
        sent := None;
      }
    }
  }
}
